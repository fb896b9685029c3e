/**
 * Inline validation of a form field (`validateField` and the listeners that
 * call it). The field's raw value is trimmed and three rules are tried in
 * order, the first that applies giving the message shown under the field:
 * a required field left empty, an e-mail field whose value does not look
 * like `local@domain.tld`, a telephone field with a character outside
 * digits, white space and `-()+`, or fewer than 10 characters.
 */
module Validation {
  import opened JsText
  import opened Wrappers

  const RequiredMessage: string := "Este campo \U{E9} obrigat\U{F3}rio."
  const EmailMessage: string := "Por favor, insira um e-mail v\U{E1}lido."
  const PhoneMessage: string := "Por favor, insira um telefone v\U{E1}lido."

  /** Characters of the class `[^\s@]`. */
  predicate NoSpaceOrAt(s: string) {
    forall k | 0 <= k < |s| :: !IsSpace(s[k]) && s[k] != '@'
  }

  /**
   * The language of `^[^\s@]+@[^\s@]+\.[^\s@]+$`: `s` splits as A@B.C with
   * A, B and C non-empty runs free of white space and `@` (B may hold dots).
   */
  ghost predicate EmailPattern(s: string) {
    exists i, j | 0 < i && i + 1 < j && j + 1 < |s| ::
      s[i] == '@' && s[j] == '.'
      && NoSpaceOrAt(s[..i]) && NoSpaceOrAt(s[i + 1..j]) && NoSpaceOrAt(s[j + 1..])
  }

  /** Position of the first `c` in `s`. */
  function IndexOf(s: string, c: char): (r: Option<nat>)
    ensures r.None? ==> c !in s
    ensures r.Some? ==> r.value < |s| && s[r.value] == c && c !in s[..r.value]
  {
    if s == [] then None
    else if s[0] == c then Some(0)
    else match IndexOf(s[1..], c)
      case None => None
      case Some(i) => assert s[..i + 1] == [s[0]] + s[1..][..i]; Some(i + 1)
  }

  /**
   * Decides the e-mail pattern by one scan: no white space, a single `@`
   * that is not first, and a `.` after it with at least one character on
   * each side. Whatever it accepts has no white space, an `@` at neither
   * end and at least five characters; a string without `@` is rejected.
   * `EmailShapeIsPattern` shows it accepts exactly the regular language.
   */
  predicate IsEmailShaped(s: string): (b: bool)
    ensures b ==> 5 <= |s| && s[0] != '@' && s[|s| - 1] != '@'
    ensures b ==> forall k | 0 <= k < |s| :: !IsSpace(s[k])
    ensures '@' !in s ==> !b
  {
    (forall k | 0 <= k < |s| :: !IsSpace(s[k]))
    && match IndexOf(s, '@')
       case None => false
       case Some(i) => 0 < i && '@' !in s[i + 1..] && i + 2 < |s| && '.' in s[i + 2..|s| - 1]
  }

  /** The scan accepts exactly the strings the regular expression accepts. */
  lemma EmailShapeIsPattern(s: string)
    ensures IsEmailShaped(s) <==> EmailPattern(s)
  {
    if IsEmailShaped(s) {
      ShapedMatchesPattern(s);
    }
    if EmailPattern(s) {
      var i, j :| 0 < i && i + 1 < j && j + 1 < |s|
        && s[i] == '@' && s[j] == '.'
        && NoSpaceOrAt(s[..i]) && NoSpaceOrAt(s[i + 1..j]) && NoSpaceOrAt(s[j + 1..]);
      PatternIsShaped(s, i, j);
    }
  }

  lemma ShapedMatchesPattern(s: string)
    requires IsEmailShaped(s)
    ensures EmailPattern(s)
  {
    var i := IndexOf(s, '@').value;
    var t := s[i + 2..|s| - 1];
    var m :| 0 <= m < |t| && t[m] == '.';
    var j := i + 2 + m;
    assert s[j] == t[m];
    var after := s[i + 1..];
    assert '@' !in after;
    var a, b, c := s[..i], s[i + 1..j], s[j + 1..];
    assert NoSpaceOrAt(a) by {
      forall k | 0 <= k < |a| ensures !IsSpace(a[k]) && a[k] != '@' {
        assert a[k] == s[k];
      }
    }
    assert NoSpaceOrAt(b) by {
      forall k | 0 <= k < |b| ensures !IsSpace(b[k]) && b[k] != '@' {
        assert b[k] == after[k] == s[i + 1 + k];
      }
    }
    assert NoSpaceOrAt(c) by {
      forall k | 0 <= k < |c| ensures !IsSpace(c[k]) && c[k] != '@' {
        assert c[k] == after[k + j - i] == s[j + 1 + k];
      }
    }
  }

  lemma PatternIsShaped(s: string, i: nat, j: nat)
    requires 0 < i && i + 1 < j && j + 1 < |s| && s[i] == '@' && s[j] == '.'
    requires NoSpaceOrAt(s[..i]) && NoSpaceOrAt(s[i + 1..j]) && NoSpaceOrAt(s[j + 1..])
    ensures IsEmailShaped(s)
  {
    var a, b, c := s[..i], s[i + 1..j], s[j + 1..];
    forall k | 0 <= k < |s| ensures !IsSpace(s[k]) && (k != i ==> s[k] != '@') {
      if k < i {
        assert s[k] == a[k];
      } else if i < k < j {
        assert s[k] == b[k - i - 1];
      } else if j < k {
        assert s[k] == c[k - j - 1];
      }
    }
    var r := IndexOf(s, '@');
    assert r == Some(i);
    var after := s[i + 1..];
    assert '@' !in after by {
      forall k | 0 <= k < |after| ensures after[k] != '@' {
        assert after[k] == s[i + 1 + k];
      }
    }
    var t := s[i + 2..|s| - 1];
    assert t[j - i - 2] == '.';
  }

  /** A character of the class `[\d\s\-\(\)\+]`. */
  predicate IsPhoneChar(c: char) {
    IsDigit(c) || IsSpace(c) || c == '-' || c == '(' || c == ')' || c == '+'
  }

  /** The language of `^[\d\s\-\(\)\+]+$`: a non-empty string drawn from that class. */
  predicate IsPhoneShaped(s: string): (b: bool)
    ensures b <==> s != [] && forall c | c in s :: IsPhoneChar(c)
  {
    |s| > 0 && forall k | 0 <= k < |s| :: IsPhoneChar(s[k])
  }

  /**
   * The message `validateField` computes for a field with the given
   * `required` flag, `type` and raw value; "" when the value passes.
   */
  function ErrorMessage(required: bool, kind: string, raw: string): (m: string)
    ensures m == RequiredMessage <==> required && AllSpace(raw)
    ensures m == EmailMessage <==>
      !AllSpace(raw) && kind == "email" && !EmailPattern(Trim(raw))
    ensures m == PhoneMessage <==>
      !AllSpace(raw) && kind == "tel"
      && ((exists k | 0 <= k < |Trim(raw)| :: !IsPhoneChar(Trim(raw)[k])) || |Trim(raw)| < 10)
    ensures m == "" <==> m != RequiredMessage && m != EmailMessage && m != PhoneMessage
  {
    var value := Trim(raw);
    EmailShapeIsPattern(value);
    if required && value == "" then RequiredMessage
    else if kind == "email" && value != "" && !IsEmailShaped(value) then EmailMessage
    else if kind == "tel" && value != "" && (!IsPhoneShaped(value) || |value| < 10) then PhoneMessage
    else ""
  }

  /** A blank required field gets the required message; a blank optional one gets none. */
  lemma BlankFieldExamples()
    ensures ErrorMessage(true, "text", "   ") == RequiredMessage
    ensures ErrorMessage(false, "email", "   ") == ""
  {
    assert AllSpace("   ");
  }

  /** Trimming strips a single blank from each end of a value padded that way. */
  lemma TrimOneBlankEachSide(s: string)
    requires |s| >= 3 && IsSpace(s[0]) && IsSpace(s[|s| - 1])
    requires !IsSpace(s[1]) && !IsSpace(s[|s| - 2])
    ensures Trim(s) == s[1..|s| - 1] && !AllSpace(s)
  {
    assert SkipSpaceFrom(s, 1) == 1;
    assert SkipSpaceFrom(s, 0) == 1;
    assert SkipSpaceBack(s, |s| - 1) == |s| - 1;
    assert SkipSpaceBack(s, |s|) == |s| - 1;
  }

  /** A value with no `@` is refused as an e-mail address. */
  lemma MalformedEmailExample(v: string)
    requires v == "not-an-email"
    ensures ErrorMessage(true, "email", v) == EmailMessage
  {
    TrimUnpadded(v);
    assert IndexOf(v, '@') == None;
    EmailShapeIsPattern(v);
  }

  lemma SimpleAddressMatches(g: string)
    requires g == "ana@agro.com"
    ensures EmailPattern(g)
  {
    assert g[..3] == "ana" && g[4..8] == "agro" && g[9..] == "com";
    PatternIsShaped(g, 3, 8);
  }

  /** A well-formed address is accepted once the surrounding blanks are trimmed. */
  lemma PaddedEmailExample(address: string, v: string)
    requires address == "ana@agro.com" && v == [' '] + address + [' ']
    ensures ErrorMessage(true, "email", v) == ""
  {
    assert v[1..|v| - 1] == address;
    TrimOneBlankEachSide(v);
    SimpleAddressMatches(address);
  }

  /** "12345" is too short for a telephone number. */
  lemma ShortPhoneExample(v: string)
    requires v == "12345"
    ensures ErrorMessage(true, "tel", v) == PhoneMessage
  {
    TrimUnpadded(v);
  }

  /** "(11) 91234-5678" is a valid telephone number. */
  lemma FullPhoneExample(v: string)
    requires v == "(11) 91234-5678"
    ensures ErrorMessage(true, "tel", v) == ""
  {
    TrimUnpadded(v);
    assert IsPhoneShaped(v);
  }

  /**
   * An input, select or text area together with the error marker on it
   * (its `error` class) and the error-message elements under its parent.
   */
  class Field {
    const required: bool
    const kind: string
    var value: string
    var error: bool
    var messages: seq<string>

    /** At most one message, and the marker is set exactly when there is one. */
    ghost predicate Valid()
      reads this
    {
      |messages| <= 1 && (error <==> messages != [])
    }

    constructor (required: bool, kind: string, value: string)
      ensures Valid() && this.required == required && this.kind == kind && this.value == value
      ensures !error && messages == []
    {
      this.required, this.kind, this.value := required, kind, value;
      error, messages := false, [];
    }

    /**
     * `validateField`: clears the marker and the first message element,
     * then sets both again when a rule fails. The value is left as typed.
     */
    method Validate()
      requires Valid()
      modifies this`error, this`messages
      ensures Valid()
      ensures var m := ErrorMessage(required, kind, value);
        error == (m != "") && messages == (if m == "" then [] else [m])
    {
      var m := ErrorMessage(required, kind, value);
      error := false;
      if |messages| > 0 {
        messages := messages[1..];
      }
      if m != "" {
        error := true;
        messages := messages + [m];
      }
    }

    /** Leaving the field validates it. */
    method OnBlur()
      requires Valid()
      modifies this`error, this`messages
      ensures Valid()
      ensures var m := ErrorMessage(required, kind, value);
        error == (m != "") && messages == (if m == "" then [] else [m])
    {
      Validate();
    }

    /** Editing the field re-validates it only while it is marked erroneous. */
    method OnInput(newValue: string)
      requires Valid()
      modifies this`value, this`error, this`messages
      ensures Valid() && value == newValue
      ensures !old(error) ==> !error && messages == []
      ensures old(error) ==> var m := ErrorMessage(required, kind, newValue);
        error == (m != "") && messages == (if m == "" then [] else [m])
    {
      value := newValue;
      if error {
        Validate();
      }
    }
  }

  /** Validating twice in a row leaves the field as the first validation did. */
  method ValidateTwice(f: Field)
    requires f.Valid()
    modifies f
    ensures f.Valid() && f.value == old(f.value)
    ensures var m := ErrorMessage(f.required, f.kind, f.value);
      f.error == (m != "") && f.messages == (if m == "" then [] else [m])
  {
    f.Validate();
    ghost var once := (f.error, f.messages);
    f.Validate();
    assert (f.error, f.messages) == once;
  }
}
