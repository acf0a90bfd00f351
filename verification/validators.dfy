/** The five field validators of core/utils.py. Each regular expression becomes a predicate
    over the whole string (`…Body`), and `Anchored` adds what Python's `re.match` gives a
    pattern written `^…$`: the `$` also matches just before one final newline. A validator
    has no effect when the pattern matches and raises `ValidationError` with its own code
    when it does not. */
module Validators {
  import opened Common

  datatype Verdict = Accept | Reject(code: string)

  const FirstNameCode: string := "CHECK_FIRST_NAME"
  const LastNameCode: string := "CHECK_LAST_NAME"
  const PhoneCode: string := "CHECK_PHONE_NUMBER"
  const EmailCode: string := "CHECK_EMAIL"
  const PasswordCode: string := "CHECK_PASSWORD"

  // Character classes of the patterns.

  predicate IsAsciiLetter(c: char) {
    'a' <= c <= 'z' || 'A' <= c <= 'Z'
  }

  predicate IsAsciiAlnum(c: char) {
    IsAsciiLetter(c) || IsDigitChar(c)
  }

  /** `[ㄱ-ㅎ|가-힣]`: Hangul compatibility jamo U+3131..U+314E, Hangul syllables
      U+AC00..U+D7A3, and the literal '|' (inside a class `|` is not alternation). */
  predicate IsNameChar(c: char) {
    0x3131 <= c as int <= 0x314E || 0xAC00 <= c as int <= 0xD7A3 || c == '|'
  }

  /** `[0|1|6|7|8|9]`: the third character of a mobile number; '|' is a member too. */
  predicate IsCarrierChar(c: char) {
    c in "016789|"
  }

  /** `[a-zA-Z0-9.+_-]`: the local part of an e-mail address. */
  predicate IsLocalChar(c: char) {
    IsAsciiAlnum(c) || c in ".+_-"
  }

  /** `[$@$!%*#?&]`: the password symbols. */
  predicate IsSymbol(c: char) {
    c in "$@!%*#?&"
  }

  predicate IsPasswordChar(c: char) {
    IsAsciiAlnum(c) || IsSymbol(c)
  }

  predicate All(s: string, p: char -> bool) {
    forall i | 0 <= i < |s| :: p(s[i])
  }

  predicate Has(s: string, p: char -> bool) {
    exists i | 0 <= i < |s| :: p(s[i])
  }

  // The patterns, each read as a predicate over the whole matched text.

  /** `re.match('^B$', s)`: B matches all of s, or all of s but a final '\n'. */
  predicate Anchored(body: string -> bool, s: string) {
    body(s) || (0 < |s| && s[|s| - 1] == '\n' && body(s[..|s| - 1]))
  }

  /** `[ㄱ-ㅎ|가-힣]+` */
  predicate NameBody(s: string) {
    0 < |s| && All(s, IsNameChar)
  }

  /** `01([0|1|6|7|8|9])-([0-9]{3,4})-([0-9]{4})` */
  predicate PhoneBody(s: string) {
    && (|s| == 12 || |s| == 13)
    && s[0] == '0' && s[1] == '1' && IsCarrierChar(s[2]) && s[3] == '-'
    && All(s[4..|s| - 5], IsDigitChar)
    && s[|s| - 5] == '-'
    && All(s[|s| - 4..], IsDigitChar)
  }

  /** `[a-zA-Z0-9.+_-]+@[a-zA-Z0-9]+\.[a-zA-Z]{2,3}`. No class before the `@` admits '@'
      and none after it admits '.', so the separators are the first '@' and the first '.'
      after it. */
  predicate EmailBody(s: string) {
    var at := IndexOf(s, '@');
    && 0 < at < |s|
    && All(s[..at], IsLocalChar)
    && DomainBody(s[at + 1..])
  }

  /** `[a-zA-Z0-9]+\.[a-zA-Z]{2,3}` */
  predicate DomainBody(t: string) {
    var dot := IndexOf(t, '.');
    && 0 < dot < |t|
    && All(t[..dot], IsAsciiAlnum)
    && 2 <= |t| - dot - 1 <= 3
    && All(t[dot + 1..], IsAsciiLetter)
  }

  /** `(?=.*[A-Za-z])(?=.*\d)(?=.*[$@$!%*#?&])[A-Za-z\d$@$!%*#?&]{8,}`. The look-aheads
      scan the same text, which holds no newline. */
  predicate PasswordBody(s: string) {
    && 8 <= |s|
    && All(s, IsPasswordChar)
    && Has(s, IsAsciiLetter)
    && Has(s, IsDigitChar)
    && Has(s, IsSymbol)
  }

  // The validators.

  function Judge(matched: bool, code: string): Verdict {
    if matched then Accept else Reject(code)
  }

  function CheckFirstName(value: string): Verdict {
    Judge(Anchored(NameBody, value), FirstNameCode)
  }

  function CheckLastName(value: string): Verdict {
    Judge(Anchored(NameBody, value), LastNameCode)
  }

  function CheckPhoneNumber(value: string): Verdict {
    Judge(Anchored(PhoneBody, value), PhoneCode)
  }

  function CheckEmail(value: string): Verdict {
    Judge(Anchored(EmailBody, value), EmailCode)
  }

  function CheckPassword(value: string): Verdict {
    Judge(Anchored(PasswordBody, value), PasswordCode)
  }

  /** Runs two validators in order: the first rejection wins. */
  function Then(first: Verdict, second: Verdict): Verdict {
    if first.Reject? then first else second
  }

  // What the validators accept.

  /** A name is accepted iff it is a non-empty run of jamo, syllables and '|', optionally
      followed by one newline; the two name validators differ only in their code. */
  lemma NameAccepts(value: string)
    ensures CheckFirstName(value) == Accept <==>
              (0 < |value| && All(value, IsNameChar))
              || (1 < |value| && value[|value| - 1] == '\n' && All(value[..|value| - 1], IsNameChar))
    ensures CheckFirstName(value) == Accept <==> CheckLastName(value) == Accept
    ensures CheckFirstName(value) == Accept || CheckFirstName(value) == Reject(FirstNameCode)
    ensures CheckLastName(value) == Accept || CheckLastName(value) == Reject(LastNameCode)
  {
  }

  /** A mobile number as the pattern builds it. */
  function PhoneOf(carrier: char, middle: string, last: string): string {
    "01" + [carrier] + "-" + middle + "-" + last
  }

  predicate PhoneParts(carrier: char, middle: string, last: string) {
    && IsCarrierChar(carrier)
    && (|middle| == 3 || |middle| == 4) && All(middle, IsDigitChar)
    && |last| == 4 && All(last, IsDigitChar)
  }

  /** Every number the pattern builds is accepted. */
  lemma PhoneOfMatches(carrier: char, middle: string, last: string)
    requires PhoneParts(carrier, middle, last)
    ensures PhoneBody(PhoneOf(carrier, middle, last))
  {
    var s := PhoneOf(carrier, middle, last);
    assert s[4..|s| - 5] == middle;
    assert s[|s| - 4..] == last;
  }

  /** The phone pattern matches exactly the numbers `PhoneOf` builds from valid parts. */
  lemma PhoneShape(s: string)
    ensures PhoneBody(s) <==>
              exists c, m, l :: PhoneParts(c, m, l) && s == PhoneOf(c, m, l)
  {
    if PhoneBody(s) {
      var m, l := s[4..|s| - 5], s[|s| - 4..];
      assert s == PhoneOf(s[2], m, l);
      assert PhoneParts(s[2], m, l);
    }
    if exists c, m, l :: PhoneParts(c, m, l) && s == PhoneOf(c, m, l) {
      var c, m, l :| PhoneParts(c, m, l) && s == PhoneOf(c, m, l);
      PhoneOfMatches(c, m, l);
    }
  }

  /** An e-mail address as the pattern builds it. */
  function EmailOf(local: string, domain: string, tld: string): string {
    local + "@" + domain + "." + tld
  }

  predicate EmailParts(local: string, domain: string, tld: string) {
    && 0 < |local| && All(local, IsLocalChar)
    && 0 < |domain| && All(domain, IsAsciiAlnum)
    && 2 <= |tld| <= 3 && All(tld, IsAsciiLetter)
  }

  lemma IndexOfFirst(s: string, c: char, k: nat)
    requires k < |s| && s[k] == c
    requires forall i | 0 <= i < k :: s[i] != c
    ensures IndexOf(s, c) == k
  {
  }

  /** Every address the pattern builds is accepted. */
  lemma EmailOfMatches(local: string, domain: string, tld: string)
    requires EmailParts(local, domain, tld)
    ensures EmailBody(EmailOf(local, domain, tld))
  {
    var s := EmailOf(local, domain, tld);
    assert s[|local|] == '@';
    IndexOfFirst(s, '@', |local|);
    assert s[..|local|] == local;
    var t := s[|local| + 1..];
    assert t == domain + "." + tld;
    assert t[|domain|] == '.';
    IndexOfFirst(t, '.', |domain|);
    assert t[..|domain|] == domain;
    assert t[|domain| + 1..] == tld;
  }

  /** The e-mail pattern matches exactly the addresses `EmailOf` builds from valid parts. */
  lemma EmailShape(s: string)
    ensures EmailBody(s) <==>
              exists l, d, t :: EmailParts(l, d, t) && s == EmailOf(l, d, t)
  {
    if EmailBody(s) {
      var at := IndexOf(s, '@');
      var rest := s[at + 1..];
      var dot := IndexOf(rest, '.');
      var l, d, t := s[..at], rest[..dot], rest[dot + 1..];
      assert rest == d + "." + t;
      assert s == l + "@" + rest;
      assert s == EmailOf(l, d, t);
      assert EmailParts(l, d, t);
    }
    if exists l, d, t :: EmailParts(l, d, t) && s == EmailOf(l, d, t) {
      var l, d, t :| EmailParts(l, d, t) && s == EmailOf(l, d, t);
      EmailOfMatches(l, d, t);
    }
  }

  /** `(?=.*C)` at the start of the text: `.` stops at a newline, so some character before
      the first newline belongs to the class C. */
  predicate LookAhead(value: string, c: char -> bool) {
    exists i | 0 <= i < IndexOf(value, '\n') :: c(value[i])
  }

  /** The password pattern read as written: the three look-aheads from the start, then a
      run of at least eight password characters that `$` closes, at the end of the text
      or just before a final newline. */
  predicate PasswordPattern(value: string) {
    && LookAhead(value, IsAsciiLetter)
    && LookAhead(value, IsDigitChar)
    && LookAhead(value, IsSymbol)
    && exists n | 8 <= n <= |value| :: All(value[..n], IsPasswordChar) && (value[n..] == "" || value[n..] == "\n")
  }

  /** The password validator accepts exactly what the pattern, read with its look-aheads,
      matches. */
  lemma PasswordMatchesPattern(value: string)
    ensures CheckPassword(value) == Accept <==> PasswordPattern(value)
  {
    if CheckPassword(value) == Accept {
      var n := if PasswordBody(value) then |value| else |value| - 1;
      AcceptedRun(value, n);
    }
    if PasswordPattern(value) {
      var n :| 8 <= n <= |value| && All(value[..n], IsPasswordChar) && (value[n..] == "" || value[n..] == "\n");
      PatternRun(value, n);
    }
  }

  /** An accepted password: the run is the text before the final newline, if any, and
      the look-aheads find their witnesses in it. */
  lemma AcceptedRun(value: string, n: nat)
    requires n <= |value| && PasswordBody(value[..n])
    requires value[n..] == "" || value[n..] == "\n"
    ensures PasswordPattern(value)
  {
    var body := value[..n];
    assert forall i | 0 <= i < n :: value[i] == body[i] && value[i] != '\n';
    if n < |value| {
      assert value[n] == value[n..][0];
      IndexOfFirst(value, '\n', n);
    }
    assert IndexOf(value, '\n') == n;
    var a :| 0 <= a < |body| && IsAsciiLetter(body[a]);
    var d :| 0 <= d < |body| && IsDigitChar(body[d]);
    var y :| 0 <= y < |body| && IsSymbol(body[y]);
    assert IsAsciiLetter(value[a]) && IsDigitChar(value[d]) && IsSymbol(value[y]);
  }

  /** A matched run: the look-aheads stop at its end, so their witnesses lie inside it. */
  lemma PatternRun(value: string, n: nat)
    requires 8 <= n <= |value| && All(value[..n], IsPasswordChar)
    requires value[n..] == "" || value[n..] == "\n"
    requires LookAhead(value, IsAsciiLetter) && LookAhead(value, IsDigitChar) && LookAhead(value, IsSymbol)
    ensures CheckPassword(value) == Accept
  {
    var body := value[..n];
    assert forall i | 0 <= i < n :: value[i] == body[i] && value[i] != '\n';
    if n < |value| {
      assert value[n] == value[n..][0];
      IndexOfFirst(value, '\n', n);
      assert value[..|value| - 1] == body;
    } else {
      assert value == body;
    }
    assert IndexOf(value, '\n') == n;
    var a :| 0 <= a < n && IsAsciiLetter(value[a]);
    var d :| 0 <= d < n && IsDigitChar(value[d]);
    var y :| 0 <= y < n && IsSymbol(value[y]);
    assert IsAsciiLetter(body[a]) && IsDigitChar(body[d]) && IsSymbol(body[y]);
    assert PasswordBody(body);
  }

  /** `$` also matches before one final newline: a value the pattern matches is still
      accepted with one "\n" appended, though the pattern itself refuses the newline. */
  lemma TrailingNewline(value: string)
    ensures NameBody(value) ==> !NameBody(value + "\n") && CheckFirstName(value + "\n") == Accept
    ensures PhoneBody(value) ==> CheckPhoneNumber(value + "\n") == Accept
    ensures EmailBody(value) ==> CheckEmail(value + "\n") == Accept
    ensures PasswordBody(value) ==> CheckPassword(value + "\n") == Accept
  {
    var v1 := value + "\n";
    assert v1[..|v1| - 1] == value;
    assert v1[|v1| - 1] == '\n';
    assert !IsNameChar(v1[|v1| - 1]);
  }

  /** Only one newline is forgiven: nothing ending in two newlines passes as a name, a
      phone number or a password. */
  lemma TwoNewlinesRefused(value: string)
    ensures CheckFirstName(value + "\n\n") != Accept
    ensures CheckPhoneNumber(value + "\n\n") != Accept
    ensures CheckPassword(value + "\n\n") != Accept
  {
    var v1, v2 := value + "\n", value + "\n\n";
    assert v2[..|v2| - 1] == v1;
    assert v2[|v2| - 1] == '\n' && v1[|v1| - 1] == '\n';
  }

  /** The separators '|' are literal: "|" passes as a name. */
  lemma NameExample()
    ensures CheckFirstName("|") == Accept
  {
  }

  /** The 3-4-4 layout: "010-1234-5678" passes, "010-123-45678" fails, and the literal '|'
      passes as a carrier digit. */
  lemma PhoneExamples()
    ensures CheckPhoneNumber("010-1234-5678") == Accept
    ensures CheckPhoneNumber("01|-123-4567") == Accept
    ensures CheckPhoneNumber("010-123-45678") == Reject(PhoneCode)
  {
    PhoneOfMatches('0', "1234", "5678");
    assert PhoneOf('0', "1234", "5678") == "010-1234-5678";
    PhoneOfMatches('|', "123", "4567");
    assert PhoneOf('|', "123", "4567") == "01|-123-4567";
    var bad := "010-123-45678";
    assert bad[|bad| - 5] == '4';
  }

  /** Only one dot may follow the '@': "a@b.co" passes and "a@b.co.kr" fails. */
  lemma EmailExamples()
    ensures CheckEmail("a@b.co") == Accept
    ensures CheckEmail("a@b.co.kr") == Reject(EmailCode)
  {
    EmailOfMatches("a", "b", "co");
    assert EmailOf("a", "b", "co") == "a@b.co";
    var kr := "a@b.co.kr";
    IndexOfFirst(kr, '@', 1);
    var t := kr[2..];
    assert t == "b.co.kr";
    IndexOfFirst(t, '.', 1);
    assert t[2..] == "co.kr";
  }

  /** A symbol is required: "abcd123!" passes and "abcd1234" fails. */
  lemma PasswordExamples()
    ensures CheckPassword("abcd123!") == Accept
    ensures CheckPassword("abcd1234") == Reject(PasswordCode)
  {
    var p := "abcd123!";
    assert IsAsciiLetter(p[0]) && IsDigitChar(p[4]) && IsSymbol(p[7]);
    var q := "abcd1234";
    assert forall i | 0 <= i < |q| :: !IsSymbol(q[i]);
    var q' := q[..|q| - 1];
    assert q[|q| - 1] != '\n';
  }
}
