/**
 * The input checks that the login and registration screens run, in this
 * order, before any network call: the e-mail must match
 * `/^[\w-\.]+@([\w-]+\.)+[\w-]{2,4}$/` and the password must have at least
 * eight characters. Both screens carry identical copies of the check; it is
 * defined once here.
 *
 * The regular expression is given two ways: `MatchesEmailRegex` transcribes
 * its structure, and `ValidateEmail` decides it by cutting the text at its
 * first `@` and splitting the rest at every `.`. `ValidateEmailIsRegex`
 * proves they accept the same strings.
 */
module Credentials {
  import opened Js

  // ---------------------------------------------------------------------------
  // Character classes (JavaScript regular expressions without the `u` flag)

  /** `\w`: ASCII letters, digits and `_`. */
  predicate IsWordChar(c: char) {
    'A' <= c <= 'Z' || 'a' <= c <= 'z' || '0' <= c <= '9' || c == '_'
  }

  /** `[\w-]`. */
  predicate IsLabelChar(c: char) {
    IsWordChar(c) || c == '-'
  }

  /** `[\w-\.]`: here `-` after a class escape is a literal. */
  predicate IsLocalChar(c: char) {
    IsLabelChar(c) || c == '.'
  }

  /** `[\w-\.]+`. */
  predicate IsLocalPart(s: string) {
    |s| >= 1 && forall k :: 0 <= k < |s| ==> IsLocalChar(s[k])
  }

  /** `[\w-]+`. */
  predicate IsLabel(s: string) {
    |s| >= 1 && forall k :: 0 <= k < |s| ==> IsLabelChar(s[k])
  }

  /** `[\w-]{2,4}`. */
  predicate IsTopLabel(s: string) {
    2 <= |s| <= 4 && forall k :: 0 <= k < |s| ==> IsLabelChar(s[k])
  }

  // ---------------------------------------------------------------------------
  // The regular expression, transcribed

  /** The text matched by one or more repetitions of `([\w-]+\.)`, one group per label. */
  function Dotted(groups: seq<string>): string
  {
    if groups == [] then "" else groups[0] + "." + Dotted(groups[1..])
  }

  /** `([\w-]+\.)+[\w-]{2,4}$`. */
  ghost predicate MatchesDomainRegex(d: string) {
    exists groups: seq<string> ::
      && |groups| >= 1
      && (forall k :: 0 <= k < |groups| ==> IsLabel(groups[k]))
      && Dotted(groups) <= d
      && IsTopLabel(d[|Dotted(groups)|..])
  }

  /** `^[\w-\.]+@([\w-]+\.)+[\w-]{2,4}$`. */
  ghost predicate MatchesEmailRegex(s: string)
    ensures MatchesEmailRegex(s) ==> '@' in s
  {
    exists i :: 0 <= i < |s| && s[i] == '@' && IsLocalPart(s[..i]) && MatchesDomainRegex(s[i + 1..])
  }

  // ---------------------------------------------------------------------------
  // The executable check

  /** `parts` joined with `sep` between consecutive parts. */
  function Join(parts: seq<string>, sep: char): (s: string)
    requires |parts| >= 1
  {
    if |parts| == 1 then parts[0] else parts[0] + [sep] + Join(parts[1..], sep)
  }

  /** `s.split(sep)`: the maximal runs without `sep`, which join back to `s`. */
  function Split(s: string, sep: char): (parts: seq<string>)
    ensures |parts| >= 1
    ensures forall k :: 0 <= k < |parts| ==> sep !in parts[k]
    ensures Join(parts, sep) == s
    decreases |s|
  {
    var i := IndexOf(s, sep);
    if i == |s| then
      assert s[..i] == s;
      [s]
    else
      var rest := Split(s[i + 1..], sep);
      assert s == s[..i] + [sep] + s[i + 1..];
      [s[..i]] + rest
  }

  lemma {:induction false} SplitJoin(parts: seq<string>, sep: char)
    requires |parts| >= 1
    requires forall k :: 0 <= k < |parts| ==> sep !in parts[k]
    ensures Split(Join(parts, sep), sep) == parts
    decreases |parts|
  {
    var s := Join(parts, sep);
    if |parts| == 1 {
      assert sep !in s;
      assert IndexOf(s, sep) == |s|;
    } else {
      var n := |parts[0]|;
      assert s == parts[0] + [sep] + Join(parts[1..], sep);
      assert s[..n] == parts[0];
      IndexOfIsFirst(s, sep, n);
      assert s[n + 1..] == Join(parts[1..], sep);
      SplitJoin(parts[1..], sep);
      assert parts == [parts[0]] + parts[1..];
    }
  }

  lemma {:induction false} JoinDotted(groups: seq<string>, last: string)
    ensures Join(groups + [last], '.') == Dotted(groups) + last
    decreases |groups|
  {
    if groups != [] {
      assert (groups + [last])[1..] == groups[1..] + [last];
      JoinDotted(groups[1..], last);
    }
  }

  /** The labels after the `@`: at least two, none empty, the last of 2 to 4 characters. */
  predicate IsDomain(labels: seq<string>) {
    && |labels| >= 2
    && (forall k :: 0 <= k < |labels| - 1 ==> IsLabel(labels[k]))
    && IsTopLabel(labels[|labels| - 1])
  }

  /** `validateEmail(text)` of the login and registration screens. */
  function ValidateEmail(text: string): (ok: bool)
    // An accepted text has an `@`, and does not start with it.
    ensures ok ==> '@' in text && IsLocalChar(text[0]) && text[0] != '@'
  {
    var at := IndexOf(text, '@');
    at < |text| && IsLocalPart(text[..at]) && IsDomain(Split(text[at + 1..], '.'))
  }

  /** A domain that passes the label check matches the domain part of the regex. */
  lemma CheckedDomainMatches(d: string)
    requires IsDomain(Split(d, '.'))
    ensures MatchesDomainRegex(d)
  {
    var labels := Split(d, '.');
    var groups := labels[..|labels| - 1];
    var last := labels[|labels| - 1];
    assert labels == groups + [last];
    JoinDotted(groups, last);
    assert d[|Dotted(groups)|..] == last;
    assert forall k :: 0 <= k < |groups| ==> IsLabel(groups[k]);
  }

  /** A domain matching the domain part of the regex passes the label check. */
  lemma MatchedDomainChecks(d: string)
    requires MatchesDomainRegex(d)
    ensures IsDomain(Split(d, '.'))
  {
    var groups :| && |groups| >= 1
                  && (forall k :: 0 <= k < |groups| ==> IsLabel(groups[k]))
                  && Dotted(groups) <= d
                  && IsTopLabel(d[|Dotted(groups)|..]);
    var last := d[|Dotted(groups)|..];
    assert d == Dotted(groups) + last;
    JoinDotted(groups, last);
    var labels := groups + [last];
    forall k | 0 <= k < |labels| ensures '.' !in labels[k] {
      assert forall j :: 0 <= j < |labels[k]| ==> IsLabelChar(labels[k][j]);
    }
    SplitJoin(labels, '.');
  }

  /** Cutting at the first `@` and splitting at `.` decides exactly the language of the regex. */
  lemma ValidateEmailIsRegex(s: string)
    ensures ValidateEmail(s) <==> MatchesEmailRegex(s)
  {
    if ValidateEmail(s) {
      var at := IndexOf(s, '@');
      CheckedDomainMatches(s[at + 1..]);
    }
    if MatchesEmailRegex(s) {
      var i :| 0 <= i < |s| && s[i] == '@' && IsLocalPart(s[..i]) && MatchesDomainRegex(s[i + 1..]);
      assert '@' !in s[..i];
      IndexOfIsFirst(s, '@', i);
      MatchedDomainChecks(s[i + 1..]);
    }
  }

  lemma {:induction false} DottedAvoids(groups: seq<string>, c: char)
    requires c != '.'
    requires forall k :: 0 <= k < |groups| ==> c !in groups[k]
    ensures c !in Dotted(groups)
    decreases |groups|
  {
    if groups != [] {
      DottedAvoids(groups[1..], c);
    }
  }

  /** What matching the domain part says about its characters. */
  lemma MatchedDomainShape(d: string)
    requires MatchesDomainRegex(d)
    ensures '@' !in d
    ensures |d| >= 2 && IsLabelChar(d[|d| - 1])
  {
    var groups :| && |groups| >= 1
                  && (forall k :: 0 <= k < |groups| ==> IsLabel(groups[k]))
                  && Dotted(groups) <= d
                  && IsTopLabel(d[|Dotted(groups)|..]);
    var top := d[|Dotted(groups)|..];
    forall k | 0 <= k < |groups| ensures '@' !in groups[k] {
      assert forall j :: 0 <= j < |groups[k]| ==> IsLabelChar(groups[k][j]);
    }
    DottedAvoids(groups, '@');
    assert d == Dotted(groups) + top;
    assert d[|d| - 1] == top[|top| - 1];
  }

  /** One `@` between two runs without it. */
  lemma SingleAt(front: string, back: string)
    requires '@' !in front && '@' !in back
    ensures multiset(front + "@" + back)['@'] == 1
  {
    assert multiset(front + "@" + back) == multiset(front) + multiset("@") + multiset(back);
    assert multiset(front)['@'] == 0 && multiset(back)['@'] == 0;
  }

  /** A local part holds no `@`. */
  lemma LocalPartAvoidsAt(l: string)
    requires IsLocalPart(l)
    ensures '@' !in l
  {
    forall k | 0 <= k < |l| ensures l[k] != '@' {
      assert IsLocalChar(l[k]);
    }
  }

  /** The shape of `front + "@" + d` for a local part `front` and a matching domain `d`. */
  lemma ShapeAround(s: string, i: nat)
    requires i < |s| && s[i] == '@' && IsLocalPart(s[..i]) && MatchesDomainRegex(s[i + 1..])
    ensures multiset(s)['@'] == 1
    ensures s[0] != '@'
    ensures s[|s| - 1] != '.'
  {
    var front, d := s[..i], s[i + 1..];
    LocalPartAvoidsAt(front);
    MatchedDomainShape(d);
    assert s == front + "@" + d;
    SingleAt(front, d);
    assert s[0] == front[0];
    assert s[|s| - 1] == d[|d| - 1];
  }

  /**
   * A string matching the regex holds exactly one `@`, does not start with
   * `@` and does not end with `.`.
   */
  lemma MatchedEmailShape(s: string)
    requires MatchesEmailRegex(s)
    ensures multiset(s)['@'] == 1
    ensures s[0] != '@'
    ensures s[|s| - 1] != '.'
  {
    var i :| 0 <= i < |s| && s[i] == '@' && IsLocalPart(s[..i]) && MatchesDomainRegex(s[i + 1..]);
    ShapeAround(s, i);
  }

  /** The same for every e-mail the screens accept. */
  lemma AcceptedEmailShape(s: string)
    requires ValidateEmail(s)
    ensures multiset(s)['@'] == 1
    ensures s[0] != '@'
    ensures s[|s| - 1] != '.'
  {
    ValidateEmailIsRegex(s);
    MatchedEmailShape(s);
  }

  // ---------------------------------------------------------------------------
  // The password rule and the order of the checks

  const MinPasswordLength := 8
  const InvalidEmailMessage := "Por favor ingresa un correo válido."
  const ShortPasswordMessage := "La contraseña debe tener al menos 8 caracteres."

  /** `ValidateEmail` on a text whose `@` and labels are known. */
  lemma ValidateEmailOn(text: string, at: nat, labels: seq<string>)
    requires at < |text| && text[at] == '@' && '@' !in text[..at]
    requires |labels| >= 1 && forall k :: 0 <= k < |labels| ==> '.' !in labels[k]
    requires text[at + 1..] == Join(labels, '.')
    ensures ValidateEmail(text) <==> IsLocalPart(text[..at]) && IsDomain(labels)
  {
    IndexOfIsFirst(text, '@', at);
    SplitJoin(labels, '.');
  }

  /** Dots and hyphens in the local part and a two-letter top label are accepted. */
  lemma AcceptedExample()
    ensures ValidateEmail("ana.p-r@mail.es")
  {
    var s := "ana.p-r@mail.es";
    assert s[..7] == "ana.p-r";
    assert '@' !in s[..7];
    assert s[8..] == Join(["mail", "es"], '.');
    assert IsLocalPart(s[..7]) by {
      forall k | 0 <= k < 7 ensures IsLocalChar(s[k]) {
      }
    }
    assert IsDomain(["mail", "es"]) by {
      assert IsLabel("mail") && IsTopLabel("es");
    }
    ValidateEmailOn(s, 7, ["mail", "es"]);
  }

  /** A one-letter top label is rejected. */
  lemma RejectedShortTop()
    ensures !ValidateEmail("ana@mail.e")
  {
    var s := "ana@mail.e";
    assert s[..3] == "ana";
    assert s[4..] == Join(["mail", "e"], '.');
    ValidateEmailOn(s, 3, ["mail", "e"]);
  }

  /** A five-letter top label is rejected. */
  lemma RejectedLongTop()
    ensures !ValidateEmail("ana@mail.email")
  {
    var s := "ana@mail.email";
    assert s[..3] == "ana";
    assert s[4..] == Join(["mail", "email"], '.');
    ValidateEmailOn(s, 3, ["mail", "email"]);
  }

  /** A domain without a dot is rejected. */
  lemma RejectedUndotted()
    ensures !ValidateEmail("ana@es")
  {
    var s := "ana@es";
    assert s[..3] == "ana";
    assert s[4..] == Join(["es"], '.');
    ValidateEmailOn(s, 3, ["es"]);
  }

  /** An empty local part is rejected. */
  lemma RejectedEmptyLocal()
    ensures !ValidateEmail("@mail.es")
  {
    var s := "@mail.es";
    assert s[1..] == Join(["mail", "es"], '.');
    ValidateEmailOn(s, 0, ["mail", "es"]);
  }

  /** An empty label is rejected. */
  lemma RejectedEmptyLabel()
    ensures !ValidateEmail("ana@mail..es")
  {
    var s := "ana@mail..es";
    assert s[..3] == "ana";
    assert s[4..] == Join(["mail", "", "es"], '.');
    ValidateEmailOn(s, 3, ["mail", "", "es"]);
  }

  /** A second `@` is rejected. */
  lemma RejectedSecondAt()
    ensures !ValidateEmail("ana@b@mail.es")
  {
    var s := "ana@b@mail.es";
    assert s[..3] == "ana";
    assert '@' !in s[..3];
    var labels := ["b@mail", "es"];
    assert s[4..] == Join(labels, '.');
    assert '.' !in labels[0] && '.' !in labels[1];
    assert !IsDomain(labels) by {
      assert !IsLabelChar(labels[0][1]);
    }
    ValidateEmailOn(s, 3, labels);
  }

  /**
   * The message the screen shows for rejected input, or `None` when both
   * checks pass. The e-mail is checked first, so when both inputs are bad
   * only the e-mail message is produced.
   */
  function CheckCredentials(email: string, password: string): (err: Option<string>)
    ensures err.None? <==> ValidateEmail(email) && |password| >= MinPasswordLength
    ensures !ValidateEmail(email) ==> err == Some(InvalidEmailMessage)
    ensures ValidateEmail(email) && |password| < MinPasswordLength ==> err == Some(ShortPasswordMessage)
  {
    if !ValidateEmail(email) then Some(InvalidEmailMessage)
    else if |password| < MinPasswordLength then Some(ShortPasswordMessage)
    else None
  }
}
