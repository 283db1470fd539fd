/**
 * The booking form's client-side validation: the required fields are
 * checked in a fixed order and the first blank one is reported by a
 * human-readable name; only then is the e-mail address checked against
 * the pattern `^[^\s@]+@[^\s@]+\.[^\s@]+$`.
 */
module FormValidation {
  import opened Text
  import opened Wrappers

  /** The submitted form: field name to value, as `Object.fromEntries(new FormData(form))` builds it. */
  type FormData = map<string, string>

  /** The required fields, in the order they are checked. The phone field is optional. */
  const RequiredFields: seq<string> := ["name", "email", "currentRevenue", "preferredDate", "preferredTime"]

  datatype Verdict = Accepted | Rejected(message: string)

  /**
   * The field is absent, empty or only white space: the source's test
   * `!data[field] || data[field].trim() === ''`, by IsBlankIffTrimEmpty.
   */
  predicate IsBlank(data: FormData, field: string) {
    field !in data || AllSpace(data[field])
  }

  lemma IsBlankIffTrimEmpty(data: FormData, field: string)
    ensures IsBlank(data, field) <==> field !in data || data[field] == "" || Trim(data[field]) == ""
  {
    if field in data {
      TrimEmptyIffAllSpace(data[field]);
    }
  }

  // ---------------------------------------------------------------------
  // Field names for messages
  // ---------------------------------------------------------------------

  /** `field.replace(/([A-Z])/g, ' $1').toLowerCase()`: a space before every capital, then lower case. */
  function Humanize(field: string): (r: string)
    ensures forall i :: 0 <= i < |r| ==> !IsAsciiUpper(r[i])
  {
    if field == [] then []
    else (if IsAsciiUpper(field[0]) then [' ', ToAsciiLower(field[0])] else [field[0]]) + Humanize(field[1..])
  }

  /** The inverse direction: a space followed by a letter becomes that letter in capitals. */
  function Camelize(text: string): string {
    if text == [] then []
    else if |text| >= 2 && text[0] == ' ' then [ToAsciiUpper(text[1])] + Camelize(text[2..])
    else [text[0]] + Camelize(text[1..])
  }

  /** A field name without spaces is recovered from its human-readable form, so no two names read alike. */
  lemma {:induction false} CamelizeHumanize(field: string)
    requires forall i :: 0 <= i < |field| ==> field[i] != ' '
    ensures Camelize(Humanize(field)) == field
  {
    if field != [] {
      var h := Humanize(field);
      var head := if IsAsciiUpper(field[0]) then [' ', ToAsciiLower(field[0])] else [field[0]];
      assert h == head + Humanize(field[1..]);
      if IsAsciiUpper(field[0]) {
        assert h[2..] == Humanize(field[1..]);
      } else {
        assert h[1..] == Humanize(field[1..]);
      }
      CamelizeHumanize(field[1..]);
    }
  }

  lemma {:induction false} HumanizeConcat(a: string, b: string)
    ensures Humanize(a + b) == Humanize(a) + Humanize(b)
  {
    if a == [] {
      assert a + b == b;
    } else {
      assert (a + b)[1..] == a[1..] + b;
      HumanizeConcat(a[1..], b);
    }
  }

  /** How the multi-word required fields are named in messages. */
  lemma HumanizeCurrentRevenue()
    ensures Humanize("currentRevenue") == "current revenue"
  {
    assert "currentRevenue" == "current" + ['R'] + "evenue";
    HumanizeCapitalized("current", 'R', "evenue");
    assert "current" + [' ', 'r'] + "evenue" == "current revenue";
  }

  lemma HumanizePreferredDate()
    ensures Humanize("preferredDate") == "preferred date"
  {
    assert "preferredDate" == "preferred" + ['D'] + "ate";
    HumanizeCapitalized("preferred", 'D', "ate");
    assert "preferred" + [' ', 'd'] + "ate" == "preferred date";
  }

  lemma HumanizePreferredTime()
    ensures Humanize("preferredTime") == "preferred time"
  {
    assert "preferredTime" == "preferred" + ['T'] + "ime";
    HumanizeCapitalized("preferred", 'T', "ime");
    assert "preferred" + [' ', 't'] + "ime" == "preferred time";
  }

  lemma {:induction false} HumanizeLower(s: string)
    requires forall i :: 0 <= i < |s| ==> !IsAsciiUpper(s[i])
    ensures Humanize(s) == s
  {
    if s != [] {
      HumanizeLower(s[1..]);
    }
  }

  /** A lower-case word, a capital, and a lower-case word. */
  lemma HumanizeCapitalized(a: string, c: char, b: string)
    requires forall i :: 0 <= i < |a| ==> !IsAsciiUpper(a[i])
    requires forall i :: 0 <= i < |b| ==> !IsAsciiUpper(b[i])
    requires IsAsciiUpper(c)
    ensures Humanize(a + [c] + b) == a + [' ', (c as int + 32) as char] + b
  {
    assert [c][1..] == [];
    assert Humanize([c]) == [' ', ToAsciiLower(c)];
    HumanizeConcat(a + [c], b);
    HumanizeConcat(a, [c]);
    HumanizeLower(a);
    HumanizeLower(b);
  }

  function MissingFieldMessage(field: string): string {
    "Please fill in the " + Humanize(field) + " field."
  }

  const InvalidEmailMessage: string := "Please enter a valid email address."

  /** The missing-field message names its field unambiguously and is never the e-mail message. */
  lemma MissingFieldMessageIdentifiesField(f: string, g: string)
    requires forall i :: 0 <= i < |f| ==> f[i] != ' '
    requires forall i :: 0 <= i < |g| ==> g[i] != ' '
    ensures MissingFieldMessage(f) == MissingFieldMessage(g) ==> f == g
    ensures MissingFieldMessage(f) != InvalidEmailMessage
  {
    var prefix, suffix := "Please fill in the ", " field.";
    var mf := MissingFieldMessage(f);
    assert mf[..|prefix|] == prefix;
    assert mf[7] == 'f' != InvalidEmailMessage[7];
    if mf == MissingFieldMessage(g) {
      var hf, hg := Humanize(f), Humanize(g);
      assert |hf| == |hg|;
      assert hf == mf[|prefix|..|mf| - |suffix|];
      assert hg == mf[|prefix|..|mf| - |suffix|];
      CamelizeHumanize(f);
      CamelizeHumanize(g);
    }
  }

  // ---------------------------------------------------------------------
  // The e-mail pattern
  // ---------------------------------------------------------------------

  /** The character class `[^\s@]`. */
  predicate IsPlainChar(c: char) {
    !IsJsSpace(c) && c != '@'
  }

  predicate IsPlain(s: string) {
    forall i :: 0 <= i < |s| ==> IsPlainChar(s[i])
  }

  /**
   * A match of `^[^\s@]+@[^\s@]+\.[^\s@]+$`: an '@' at i and a '.' at j
   * split the string into three non-empty runs of characters that are
   * neither white space nor '@'.
   */
  ghost predicate MatchesEmailPattern(s: string) {
    exists i, j :: 0 < i && i + 1 < j && j + 1 < |s| && s[i] == '@' && s[j] == '.' &&
      IsPlain(s[..i]) && IsPlain(s[i + 1..j]) && IsPlain(s[j + 1..])
  }

  function CountChar(s: string, c: char): nat {
    if s == [] then 0 else (if s[0] == c then 1 else 0) + CountChar(s[1..], c)
  }

  /** The first index of c in s, or |s| when there is none. */
  function IndexOf(s: string, c: char): (k: nat)
    ensures k <= |s|
    ensures k < |s| ==> s[k] == c
    ensures forall i :: 0 <= i < k ==> s[i] != c
  {
    if s == [] then 0 else if s[0] == c then 0 else 1 + IndexOf(s[1..], c)
  }

  predicate HasNoSpace(s: string) {
    forall i :: 0 <= i < |s| ==> !IsJsSpace(s[i])
  }

  /**
   * The e-mail check written out: no white space, exactly one '@' with
   * something before it, and after it a '.' with at least one character
   * on each side.
   */
  predicate IsValidEmail(s: string) {
    var at := IndexOf(s, '@');
    HasNoSpace(s) && CountChar(s, '@') == 1 && 0 < at && at + 3 <= |s| && '.' in s[at + 2..|s| - 1]
  }

  lemma {:induction false} CountCharConcat(a: string, b: string, c: char)
    ensures CountChar(a + b, c) == CountChar(a, c) + CountChar(b, c)
  {
    if a == [] {
      assert a + b == b;
    } else {
      assert (a + b)[1..] == a[1..] + b;
      CountCharConcat(a[1..], b, c);
    }
  }

  lemma {:induction false} CountCharZero(s: string, c: char)
    ensures CountChar(s, c) == 0 <==> forall i :: 0 <= i < |s| ==> s[i] != c
  {
    if s != [] {
      CountCharZero(s[1..], c);
      assert forall i :: 1 <= i < |s| ==> s[i] == s[1..][i - 1];
    }
  }

  /** Splitting s around position k. */
  lemma CountCharAround(s: string, k: nat, c: char)
    requires k < |s|
    ensures CountChar(s, c) == CountChar(s[..k], c) + (if s[k] == c then 1 else 0) + CountChar(s[k + 1..], c)
  {
    assert s == s[..k] + ([s[k]] + s[k + 1..]);
    CountCharConcat(s[..k], [s[k]] + s[k + 1..], c);
    CountCharConcat([s[k]], s[k + 1..], c);
  }

  lemma ValidEmailMatchesPattern(s: string)
    requires IsValidEmail(s)
    ensures MatchesEmailPattern(s)
  {
    var i := IndexOf(s, '@');
    var tail := s[i + 2..|s| - 1];
    var k :| 0 <= k < |tail| && tail[k] == '.';
    var j := i + 2 + k;
    assert s[j] == '.';
    CountCharAround(s, i, '@');
    CountCharZero(s[i + 1..], '@');
    forall p | 0 <= p < |s| && p != i ensures IsPlainChar(s[p]) {
      if p > i {
        assert s[p] == s[i + 1..][p - i - 1];
      }
    }
    assert IsPlain(s[..i]) by {
      forall p | 0 <= p < i ensures IsPlainChar(s[..i][p]) {
        assert s[..i][p] == s[p];
      }
    }
    var domain, tld := s[i + 1..j], s[j + 1..];
    forall p | 0 <= p < |domain| ensures IsPlainChar(domain[p]) {
      assert domain[p] == s[i + 1 + p];
    }
    forall p | 0 <= p < |tld| ensures IsPlainChar(tld[p]) {
      assert tld[p] == s[j + 1 + p];
    }
  }

  lemma PatternMatchIsValidEmail(s: string, i: nat, j: nat)
    requires 0 < i && i + 1 < j && j + 1 < |s| && s[i] == '@' && s[j] == '.'
    requires IsPlain(s[..i]) && IsPlain(s[i + 1..j]) && IsPlain(s[j + 1..])
    ensures IsValidEmail(s)
  {
    forall p | 0 <= p < |s| ensures !IsJsSpace(s[p]) && (p != i ==> s[p] != '@') {
      if p < i {
        assert s[p] == s[..i][p];
      } else if i < p < j {
        assert s[p] == s[i + 1..j][p - i - 1];
      } else if j < p {
        assert s[p] == s[j + 1..][p - j - 1];
      }
    }
    assert IndexOf(s, '@') == i;
    CountCharAround(s, i, '@');
    CountCharZero(s[..i], '@');
    CountCharZero(s[i + 1..], '@');
    assert s[i + 2..|s| - 1][j - i - 2] == '.';
  }

  /** The written-out check accepts exactly the strings the regular expression matches. */
  lemma EmailCheckIffPattern(s: string)
    ensures IsValidEmail(s) <==> MatchesEmailPattern(s)
  {
    if IsValidEmail(s) {
      ValidEmailMatchesPattern(s);
    }
    if MatchesEmailPattern(s) {
      var i: nat, j: nat :| 0 < i && i + 1 < j && j + 1 < |s| && s[i] == '@' && s[j] == '.' &&
        IsPlain(s[..i]) && IsPlain(s[i + 1..j]) && IsPlain(s[j + 1..]);
      PatternMatchIsValidEmail(s, i, j);
    }
  }

  // ---------------------------------------------------------------------
  // validateForm
  // ---------------------------------------------------------------------

  /** The position of the first blank field, scanning in order. */
  function FirstBlank(data: FormData, fields: seq<string>): (r: Option<nat>)
    ensures r.Some? ==> r.value < |fields| && IsBlank(data, fields[r.value])
    ensures r.Some? ==> forall k :: 0 <= k < r.value ==> !IsBlank(data, fields[k])
    ensures r.None? ==> forall k :: 0 <= k < |fields| ==> !IsBlank(data, fields[k])
  {
    if fields == [] then None
    else if IsBlank(data, fields[0]) then Some(0)
    else
      var rest := FirstBlank(data, fields[1..]);
      assert forall k :: 1 <= k < |fields| ==> fields[k] == fields[1..][k - 1];
      if rest.None? then None else Some(rest.value + 1)
  }

  /** `validateForm`, with the message it shows as part of the verdict. */
  function ValidateForm(data: FormData): Verdict {
    match FirstBlank(data, RequiredFields)
    case Some(k) => Rejected(MissingFieldMessage(RequiredFields[k]))
    case None =>
      assert !IsBlank(data, RequiredFields[1]);
      if IsValidEmail(data["email"]) then Accepted else Rejected(InvalidEmailMessage)
  }

  /** The first blank required field, in the fixed order, is the one reported. */
  lemma ValidateReportsFirstBlank(data: FormData, k: nat)
    requires k < |RequiredFields| && IsBlank(data, RequiredFields[k])
    requires forall j :: 0 <= j < k ==> !IsBlank(data, RequiredFields[j])
    ensures ValidateForm(data) == Rejected(MissingFieldMessage(RequiredFields[k]))
  {
    var r := FirstBlank(data, RequiredFields);
    assert r.Some?;
    if r.value < k {
    } else if r.value > k {
    }
  }

  /** With every required field filled in, the e-mail pattern alone decides. */
  lemma ValidateChecksEmailLast(data: FormData)
    requires forall j :: 0 <= j < |RequiredFields| ==> !IsBlank(data, RequiredFields[j])
    ensures "email" in data
    ensures ValidateForm(data) == if MatchesEmailPattern(data["email"]) then Accepted else Rejected(InvalidEmailMessage)
  {
    assert !IsBlank(data, RequiredFields[1]);
    EmailCheckIffPattern(data["email"]);
  }

  /** The form is accepted exactly when no required field is blank and the e-mail matches the pattern. */
  lemma ValidateAcceptedIff(data: FormData)
    ensures ValidateForm(data) == Accepted <==>
      (forall j :: 0 <= j < |RequiredFields| ==> !IsBlank(data, RequiredFields[j])) &&
      "email" in data && MatchesEmailPattern(data["email"])
  {
    if forall j :: 0 <= j < |RequiredFields| ==> !IsBlank(data, RequiredFields[j]) {
      ValidateChecksEmailLast(data);
    }
  }

  /** Fields outside the required list, such as the phone number, never affect the verdict. */
  lemma ValidateIgnoresOptionalFields(data: FormData, field: string, value: string)
    requires field !in RequiredFields
    ensures ValidateForm(data[field := value]) == ValidateForm(data)
  {
    var d := data[field := value];
    forall j | 0 <= j < |RequiredFields| ensures IsBlank(d, RequiredFields[j]) == IsBlank(data, RequiredFields[j]) {
      assert RequiredFields[j] != field;
    }
    FirstBlankAgree(d, data, RequiredFields);
    assert "email" != field;
  }

  lemma {:induction false} FirstBlankAgree(d: FormData, e: FormData, fields: seq<string>)
    requires forall j :: 0 <= j < |fields| ==> IsBlank(d, fields[j]) == IsBlank(e, fields[j])
    ensures FirstBlank(d, fields) == FirstBlank(e, fields)
  {
    if fields != [] {
      FirstBlankAgree(d, e, fields[1..]);
    }
  }
}
