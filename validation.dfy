/**
 * The form's `validate`: an ordered list of checks in which the first
 * failure is the one reported.
 */
module Validation {
  import opened Wrappers
  import opened Text
  import opened Records

  /** The four problems `validate` reports; `MissingGuestName` carries the 1-based guest number it shows. */
  datatype ValidationError = EmptyName | InvalidEmail | InvalidGuestCount | MissingGuestName(guest: nat)

  /** The text shown to the user for each problem. */
  function Message(e: ValidationError): string {
    match e
    case EmptyName => "Please enter your full name"
    case InvalidEmail => "Please enter a valid email"
    case InvalidGuestCount => "Guests must be 0 or more"
    case MissingGuestName(k) => "Please enter a name for guest " + NatToDecimal(k)
  }

  /**
   * Each error has its own message: the message alone tells which rule
   * failed and, for a guest, which guest.
   */
  lemma MessageDetermines(e1: ValidationError, e2: ValidationError)
    requires Message(e1) == Message(e2)
    ensures e1 == e2
  {
    var m := Message(e1);
    match e1
    case EmptyName =>
      assert m[13] == 'y';
    case InvalidEmail =>
      assert m[15] == 'v';
    case InvalidGuestCount =>
      assert m[0] == 'G';
    case MissingGuestName(k) =>
      var prefix := "Please enter a name for guest ";
      assert m[15] == 'n';
      assert e2.MissingGuestName?;
      assert m[|prefix|..] == NatToDecimal(k);
      assert Message(e2)[|prefix|..] == NatToDecimal(e2.guest);
      DecimalRoundTrip(k);
      DecimalRoundTrip(e2.guest);
  }

  /** `!s.trim()`: by `TrimEmptyIffAllWhitespace`, the string is whitespace only. */
  predicate Blank(s: string) {
    AllWhitespace(s)
  }

  /** The character class `[^@\s]`. */
  predicate PatternChar(c: char) {
    c != '@' && !IsWhitespace(c)
  }

  /** `[^@\s]+` matching all of `s`. */
  predicate PatternRun(s: string) {
    |s| > 0 && forall k :: 0 <= k < |s| ==> PatternChar(s[k])
  }

  /** `s` splits as run `@` run `.` run, with the `@` at `at` and the `.` at `dot`. */
  predicate EmailSplit(s: string, at: int, dot: int) {
    0 <= at < dot < |s| && s[at] == '@' && s[dot] == '.'
    && PatternRun(s[..at]) && PatternRun(s[at + 1..dot]) && PatternRun(s[dot + 1..])
  }

  /** The language of `^[^@\s]+@[^@\s]+\.[^@\s]+$`. */
  ghost predicate MatchesEmailPattern(s: string) {
    exists at, dot :: EmailSplit(s, at, dot)
  }

  /** The first position of `c` in `s`. */
  function IndexOf(s: string, c: char): (r: Option<nat>)
    ensures r.Some? ==> r.value < |s| && s[r.value] == c && c !in s[..r.value]
    ensures r.None? ==> c !in s
  {
    if s == [] then None
    else if s[0] == c then Some(0)
    else
      match IndexOf(s[1..], c)
      case None => None
      case Some(i) =>
        assert s[..i + 1] == [s[0]] + s[1..][..i];
        Some(i + 1)
  }

  /**
   * Decides the email pattern without backtracking: the only `@` has a
   * non-empty run before it, and the part after it has no `@` or
   * whitespace and a `.` that is neither its first nor its last character.
   */
  function EmailShaped(s: string): bool {
    match IndexOf(s, '@')
    case None => false
    case Some(at) =>
      var domain := s[at + 1..];
      PatternRun(s[..at]) && PatternRun(domain) && |domain| >= 3 && '.' in domain[1..|domain| - 1]
  }

  lemma ShapedEmailMatches(s: string)
    requires EmailShaped(s)
    ensures MatchesEmailPattern(s)
  {
    var at := IndexOf(s, '@').value;
    var domain := s[at + 1..];
    var inner := domain[1..|domain| - 1];
    var p :| 0 <= p < |inner| && inner[p] == '.';
    var dot := at + 2 + p;
    assert s[dot] == domain[p + 1];
    assert s[at + 1..dot] == domain[..p + 1];
    assert s[dot + 1..] == domain[p + 2..];
    assert EmailSplit(s, at, dot);
  }

  lemma {:induction false} IndexOfFirst(s: string, c: char, i: nat)
    requires i < |s| && s[i] == c && c !in s[..i]
    ensures IndexOf(s, c) == Some(i)
  {
    if i > 0 {
      assert s[0] == s[..i][0];
      assert s[1..][..i - 1] == s[..i][1..];
      IndexOfFirst(s[1..], c, i - 1);
    }
  }

  lemma RunsJoin(x: string, ch: char, y: string)
    requires PatternRun(x) && PatternChar(ch) && PatternRun(y)
    ensures PatternRun(x + [ch] + y)
  {
    var j := x + [ch] + y;
    forall k | 0 <= k < |j|
      ensures PatternChar(j[k])
    {
      if k < |x| {
        assert j[k] == x[k];
      } else if k > |x| {
        assert j[k] == y[k - |x| - 1];
      }
    }
  }

  lemma MatchingEmailShaped(s: string)
    requires MatchesEmailPattern(s)
    ensures EmailShaped(s)
  {
    var at, dot :| EmailSplit(s, at, dot);
    var local := s[..at];
    assert '@' !in local by {
      assert forall k :: 0 <= k < |local| ==> PatternChar(local[k]);
    }
    IndexOfFirst(s, '@', at);
    var domain := s[at + 1..];
    assert domain == s[at + 1..dot] + [s[dot]] + s[dot + 1..];
    RunsJoin(s[at + 1..dot], s[dot], s[dot + 1..]);
    assert domain[1..|domain| - 1][dot - at - 2] == '.';
  }

  /** The decision procedure accepts exactly the strings the regular expression matches. */
  lemma EmailShapedMatchesPattern(s: string)
    ensures EmailShaped(s) <==> MatchesEmailPattern(s)
  {
    if EmailShaped(s) {
      ShapedEmailMatches(s);
    }
    if MatchesEmailPattern(s) {
      MatchingEmailShaped(s);
    }
  }

  /** The email check as `validate` writes it: `!email.trim() || !pattern.test(email)` fails. */
  predicate EmailAccepted(email: string) {
    !Blank(email) && EmailShaped(email)
  }

  /** An address the pattern accepts is never blank, so the `trim` test never decides the outcome. */
  lemma BlankEmailNeverShaped(email: string)
    ensures EmailShaped(email) ==> !Blank(email)
  {
    if EmailShaped(email) {
      var at := IndexOf(email, '@').value;
      assert !IsWhitespace(email[at]);
    }
  }

  /** `Number(form.guests)` is a number and not negative. */
  predicate CountAccepted(count: Option<int>) {
    count.Some? && count.value >= 0
  }

  /** Guest names are checked only for an attending party with a positive count. */
  predicate ChecksGuestNames(form: Form) {
    form.attending == "yes" && form.guests.Some? && form.guests.value > 0
  }

  /** `!guestsDetails[i]?.name?.trim()`: a row past the end of the list counts as unnamed. */
  predicate GuestUnnamed(guests: seq<Guest>, i: nat) {
    i >= |guests| || Blank(guests[i].name)
  }

  /** The lowest index below `count` whose guest is unnamed, if there is one. */
  function FirstUnnamedGuest(guests: seq<Guest>, count: nat): (r: Option<nat>)
    ensures r.Some? ==> r.value < count && GuestUnnamed(guests, r.value)
    ensures r.Some? ==> forall j :: 0 <= j < r.value ==> !GuestUnnamed(guests, j)
    ensures r.None? ==> forall j :: 0 <= j < count ==> !GuestUnnamed(guests, j)
  {
    if count == 0 then None
    else
      match FirstUnnamedGuest(guests, count - 1)
      case Some(i) => Some(i)
      case None => if GuestUnnamed(guests, count - 1) then Some(count - 1) else None
  }

  /** The first unnamed guest is the one a scan from the front stops at. */
  lemma FirstUnnamedGuestAt(guests: seq<Guest>, count: nat, i: nat)
    requires i < count && GuestUnnamed(guests, i)
    requires forall j :: 0 <= j < i ==> !GuestUnnamed(guests, j)
    ensures FirstUnnamedGuest(guests, count) == Some(i)
  {
  }

  /** A form `validate` lets through: every rule holds. */
  predicate Acceptable(form: Form, guests: seq<Guest>) {
    !Blank(form.fullName) && EmailAccepted(form.email) && CountAccepted(form.guests)
    && (ChecksGuestNames(form) ==> forall j :: 0 <= j < form.guests.value ==> !GuestUnnamed(guests, j))
  }

  /**
   * What `validate` reports for a form and its guest list: the first rule
   * that fails, in the order name, email, count, guest names.
   */
  function FirstProblem(form: Form, guests: seq<Guest>): (problem: Option<ValidationError>)
    ensures problem == Some(EmptyName) <==> Blank(form.fullName)
    ensures problem == Some(InvalidEmail) <==> !Blank(form.fullName) && !EmailAccepted(form.email)
    ensures problem == Some(InvalidGuestCount) <==>
      !Blank(form.fullName) && EmailAccepted(form.email) && !CountAccepted(form.guests)
    ensures problem.Some? && problem.value.MissingGuestName? ==>
      ChecksGuestNames(form) && 1 <= problem.value.guest <= form.guests.value
      && GuestUnnamed(guests, problem.value.guest - 1)
      && forall j :: 0 <= j < problem.value.guest - 1 ==> !GuestUnnamed(guests, j)
    ensures problem.None? <==> Acceptable(form, guests)
  {
    if Blank(form.fullName) then Some(EmptyName)
    else if !EmailAccepted(form.email) then Some(InvalidEmail)
    else if !CountAccepted(form.guests) then Some(InvalidGuestCount)
    else if ChecksGuestNames(form) then
      match FirstUnnamedGuest(guests, form.guests.value)
      case Some(i) => Some(MissingGuestName(i + 1))
      case None => None
    else None
  }

  /** `validate`: the checks in order, with a loop over the guests that returns at the first unnamed one. */
  method Validate(form: Form, guestsDetails: seq<Guest>) returns (problem: Option<ValidationError>)
    ensures problem == FirstProblem(form, guestsDetails)
  {
    TrimEmptyIffAllWhitespace(form.fullName);
    if Trim(form.fullName) == [] {
      return Some(EmptyName);
    }
    TrimEmptyIffAllWhitespace(form.email);
    if Trim(form.email) == [] || !EmailShaped(form.email) {
      return Some(InvalidEmail);
    }
    if form.guests.None? || form.guests.value < 0 {
      return Some(InvalidGuestCount);
    }
    var guestNum := form.guests.value;
    if form.attending == "yes" && guestNum > 0 {
      for i := 0 to guestNum
        invariant forall j :: 0 <= j < i ==> !GuestUnnamed(guestsDetails, j)
      {
        if i < |guestsDetails| {
          TrimEmptyIffAllWhitespace(guestsDetails[i].name);
        }
        if i >= |guestsDetails| || Trim(guestsDetails[i].name) == [] {
          FirstUnnamedGuestAt(guestsDetails, guestNum, i);
          return Some(MissingGuestName(i + 1));
        }
      }
    }
    return None;
  }

  /** The example address is accepted: it splits as "alex" "@" "example" "." "com". */
  lemma ExampleEmailAccepted()
    ensures EmailAccepted("alex@example.com")
  {
    assert EmailSplit("alex@example.com", 4, 12);
    EmailShapedMatchesPattern("alex@example.com");
    BlankEmailNeverShaped("alex@example.com");
  }

  /**
   * An attending party of two whose first guest is named and whose second
   * is not is told to name guest 2, once name and email pass.
   */
  lemma SecondGuestUnnamed(form: Form, guests: seq<Guest>)
    requires !Blank(form.fullName) && EmailAccepted(form.email)
    requires form.attending == "yes" && form.guests == Some(2)
    requires |guests| == 2 && !Blank(guests[0].name) && Blank(guests[1].name)
    ensures FirstProblem(form, guests) == Some(MissingGuestName(2))
  {
    FirstUnnamedGuestAt(guests, 2, 1);
  }

}
