/** The input checks of the interactive registration client: its e-mail
    pattern, its own password check (which names the first thing missing)
    and the user-name test of its input loop. Each is related to the server's
    validator for the same field. */
module SimpleRegister {
  import opened Common
  import opened Text
  import Schemas

  const EmptyUsernameMessage := "用户名不能为空"
  const PasswordLetterMessage := "密码必须包含字母"
  const PasswordDigitMessage := "密码必须包含数字"
  const PasswordOkMessage := "密码格式正确"

  /** `[a-zA-Z0-9._%+-]`: a character of the local part. */
  predicate LocalChar(c: char) {
    IsAlnum(c) || c == '.' || c == '_' || c == '%' || c == '+' || c == '-'
  }

  /** `[a-zA-Z0-9.-]`: a character of the domain. */
  predicate DomainChar(c: char) {
    IsAlnum(c) || c == '.' || c == '-'
  }

  predicate AllLocal(s: string) { forall i :: 0 <= i < |s| ==> LocalChar(s[i]) }
  predicate AllDomain(s: string) { forall i :: 0 <= i < |s| ==> DomainChar(s[i]) }
  predicate AllLetters(s: string) { forall i :: 0 <= i < |s| ==> IsLetter(s[i]) }

  /** The pattern `[a-zA-Z0-9._%+-]+@[a-zA-Z0-9.-]+\.[a-zA-Z]{2,}` spans all
      of `s` with its `@` at `at` and its `\.` at `dot`. */
  predicate EmailShape(s: string, at: int, dot: int) {
    && 0 < at && at + 1 < dot && dot + 3 <= |s|
    && s[at] == '@' && s[dot] == '.'
    && AllLocal(s[..at]) && AllDomain(s[at + 1..dot]) && AllLetters(s[dot + 1..])
  }

  /** Some way of reading `s` matches the pattern from end to end. */
  ghost predicate FullMatch(s: string) {
    exists at, dot :: EmailShape(s, at, dot)
  }

  /** A matcher without backtracking: no class of the pattern admits `@`, so
      the `@` is the first one; the top-level domain admits no `.`, so the
      `\.` is the last `.` after it. */
  function MatchesWhole(s: string): bool {
    match FirstIndex(s, '@')
    case None => false
    case Some(at) =>
      var rest := s[at + 1..];
      match LastIndex(rest, '.')
      case None => false
      case Some(d) =>
        && 0 < at && 0 < d && |rest| - d - 1 >= 2
        && AllLocal(s[..at]) && AllDomain(rest[..d]) && AllLetters(rest[d + 1..])
  }

  /** In a match, the `@` is the first `@` of the string. */
  lemma ShapeAtIsFirst(s: string, at: int, dot: int)
    requires EmailShape(s, at, dot)
    ensures FirstIndex(s, '@') == Some(at)
  {
    forall j | 0 <= j < at ensures s[j] != '@' {
      assert s[j] == s[..at][j];
    }
  }

  /** In a match, the `\.` is the last `.` after the `@`. */
  lemma ShapeDotIsLast(s: string, at: int, dot: int)
    requires EmailShape(s, at, dot)
    ensures LastIndex(s[at + 1..], '.') == Some(dot - at - 1)
  {
    var rest := s[at + 1..];
    forall j | dot - at - 1 < j < |rest| ensures rest[j] != '.' {
      assert rest[j] == s[dot + 1..][j - (dot - at)];
    }
  }

  /** Every string the pattern spans is accepted by the matcher. */
  lemma PatternIsMatched(s: string, at: int, dot: int)
    requires EmailShape(s, at, dot)
    ensures MatchesWhole(s)
  {
    ShapeAtIsFirst(s, at, dot);
    ShapeDotIsLast(s, at, dot);
    var rest := s[at + 1..];
    var d := dot - at - 1;
    assert rest[..d] == s[at + 1..dot];
    assert rest[d + 1..] == s[dot + 1..];
    MatcherAccepts(s, at, d);
  }

  /** The matcher accepts when the first `@` and the last `.` after it
      delimit pieces of the right classes and lengths. */
  lemma MatcherAccepts(s: string, at: nat, d: nat)
    requires FirstIndex(s, '@') == Some(at) && LastIndex(s[at + 1..], '.') == Some(d)
    requires 0 < at && 0 < d && |s[at + 1..]| - d - 1 >= 2
    requires AllLocal(s[..at]) && AllDomain(s[at + 1..][..d]) && AllLetters(s[at + 1..][d + 1..])
    ensures MatchesWhole(s)
  {
  }

  /** The pieces the matcher checks, an `@` at `at` and a `.` at `d` after
      it, lay out a match. */
  lemma PartsFormShape(s: string, at: int, d: int)
    requires 0 < at < |s| && s[at] == '@'
    requires 0 < d && |s[at + 1..]| - d - 1 >= 2 && s[at + 1..][d] == '.'
    requires AllLocal(s[..at]) && AllDomain(s[at + 1..][..d]) && AllLetters(s[at + 1..][d + 1..])
    ensures EmailShape(s, at, at + 1 + d)
  {
    var rest := s[at + 1..];
    var dot := at + 1 + d;
    assert rest[..d] == s[at + 1..dot];
    assert rest[d + 1..] == s[dot + 1..];
  }

  /** Every string the matcher accepts is spanned by the pattern, with the
      first `@` and the last `.` after it. */
  lemma MatchedIsPattern(s: string)
    requires MatchesWhole(s)
    ensures FullMatch(s)
  {
    var at := FirstIndex(s, '@').value;
    var d := LastIndex(s[at + 1..], '.').value;
    PartsFormShape(s, at, d);
  }

  /** The matcher accepts exactly the strings the pattern spans. */
  lemma MatchesWholeIsPattern(s: string)
    ensures MatchesWhole(s) <==> FullMatch(s)
  {
    if FullMatch(s) {
      var at, dot :| EmailShape(s, at, dot);
      PatternIsMatched(s, at, dot);
    }
    if MatchesWhole(s) {
      MatchedIsPattern(s);
    }
  }

  /** `validate_email`: `re.match` anchors the pattern at the start, and `$`
      matches at the end of the string or just before a newline that ends
      it. */
  function ValidateEmail(email: string): (ok: bool)
    ensures ok <==>
      || FullMatch(email)
      || (|email| > 0 && email[|email| - 1] == '\n' && FullMatch(email[..|email| - 1]))
  {
    MatchesWholeIsPattern(email);
    if MatchesWhole(email) then true
    else if |email| > 0 && email[|email| - 1] == '\n' then
      MatchesWholeIsPattern(email[..|email| - 1]);
      MatchesWhole(email[..|email| - 1])
    else false
  }

  /** An accepted address has exactly one `@`, with something before it. */
  lemma AcceptedHasOneAt(email: string)
    requires FullMatch(email)
    ensures exists at :: 0 < at < |email| && email[at] == '@' && '@' !in email[..at] && '@' !in email[at + 1..]
  {
    var at, dot :| EmailShape(email, at, dot);
    ShapeAtIsFirst(email, at, dot);
    forall j | at < j < |email| ensures email[j] != '@' {
      if j < dot {
        assert email[j] == email[at + 1..dot][j - at - 1];
      } else if j > dot {
        assert email[j] == email[dot + 1..][j - dot - 1];
      }
    }
  }

  /** A sample address is accepted, and so is it with one trailing newline,
      which `$` lets through. */
  lemma EmailAccepted()
    ensures ValidateEmail("demo@example.com")
    ensures ValidateEmail("demo@example.com\n")
  {
    var good := "demo@example.com";
    assert good[..4] == "demo" && good[5..12] == "example" && good[13..] == "com";
    assert AllLocal("demo") && AllDomain("example") && AllLetters("com");
    assert EmailShape(good, 4, 12);
    assert good == ("demo@example.com\n")[..|good|];
  }

  /** A one-letter top-level domain is refused. */
  lemma ShortDomainRefused()
    ensures !ValidateEmail("a@b.c")
  {
    MatchesWholeIsPattern("a@b.c");
    assert FirstIndex("a@b.c", '@') == Some(1);
    assert LastIndex("b.c", '.') == Some(1);
  }

  /** A doubled `@` is refused: the domain would start with the second. */
  lemma DoubledAtRefused()
    ensures !ValidateEmail("a@@b.com")
  {
    var s := "a@@b.com";
    DoubledAtFirst();
    DoubledAtNotMatched();
    assert s[|s| - 1] != '\n';
  }

  lemma DoubledAtFirst()
    ensures FirstIndex("a@@b.com", '@') == Some(1)
  {
    var s := "a@@b.com";
    assert s[1] == '@' && s[0] != '@';
  }

  lemma DoubledAtNotMatched()
    requires FirstIndex("a@@b.com", '@') == Some(1)
    ensures !MatchesWhole("a@@b.com")
  {
    var s := "a@@b.com";
    assert s[2..][0] == '@';
  }

  /** `validate_password` of the client: the length first, then a missing
      letter, then a missing digit, each with its own message; it accepts
      exactly what the server's password validator accepts. */
  function ValidatePassword(password: string): (r: (bool, string))
    ensures r.0 <==> Schemas.ValidatePassword(password).Success?
    ensures r.0 ==> r.1 == PasswordOkMessage
    ensures |password| < Schemas.PasswordMinLength ==> r == (false, Schemas.PasswordLengthMessage)
    ensures |password| >= Schemas.PasswordMinLength && !Schemas.HasLetter(password) ==> r == (false, PasswordLetterMessage)
    ensures |password| >= Schemas.PasswordMinLength && Schemas.HasLetter(password) && !Schemas.HasDigit(password) ==>
      r == (false, PasswordDigitMessage)
  {
    if |password| < 8 then (false, "密码长度至少8个字符")
    else
      var hasLetter := exists i :: 0 <= i < |password| && IsLetter(password[i]);
      var hasDigit := exists i :: 0 <= i < |password| && IsDigit(password[i]);
      if !hasLetter then (false, "密码必须包含字母")
      else if !hasDigit then (false, "密码必须包含数字")
      else (true, "密码格式正确")
  }

  /** Where the two password checks both refuse, they agree on a too-short
      password; otherwise the server names the composition rule and the
      client names the class that is missing. */
  lemma PasswordMessagesCorrespond(password: string)
    requires !ValidatePassword(password).0
    ensures Schemas.ValidatePassword(password).Failure?
    ensures Schemas.ValidatePassword(password).error == Schemas.PasswordLengthMessage <==>
            ValidatePassword(password).1 == Schemas.PasswordLengthMessage
    ensures Schemas.ValidatePassword(password).error == Schemas.PasswordCompositionMessage <==>
            ValidatePassword(password).1 in {PasswordLetterMessage, PasswordDigitMessage}
  {
  }

  /** The sample passwords: an all-letter one misses its digit, an all-digit
      one its letter, and a short one fails on length whatever it holds. */
  lemma PasswordExamples()
    ensures ValidatePassword("abcdefgh") == (false, PasswordDigitMessage)
    ensures ValidatePassword("12345678") == (false, PasswordLetterMessage)
    ensures ValidatePassword("a1") == (false, Schemas.PasswordLengthMessage)
    ensures ValidatePassword("testpass123") == (true, PasswordOkMessage)
  {
    assert IsLetter("abcdefgh"[0]);
    assert IsDigit("12345678"[0]);
    assert IsLetter("testpass123"[0]) && IsDigit("testpass123"[8]);
  }

  /** The user-name test of the client's input loop (on the stripped line):
      the text of the complaint it prints after its `❌ ` mark, or `None`
      when the loop accepts the name. It
      accepts exactly the names the server's validator accepts, and refuses
      a non-empty name with the server's own message. */
  function CheckUsername(username: string): (r: Option<string>)
    ensures r.None? <==> Schemas.ValidateUsername(username).Success?
    ensures username == [] ==> r == Some(EmptyUsernameMessage)
    ensures username != [] && r.Some? ==> Schemas.ValidateUsername(username) == Failure(r.value)
  {
    if username == [] then Some(EmptyUsernameMessage)
    else if |username| < 3 || |username| > 50 then Some(Schemas.UsernameLengthMessage)
    else if !IsAlnumString(RemoveChar(username, '_')) then Some(Schemas.UsernameCharsetMessage)
    else None
  }
}
