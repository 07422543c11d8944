/**
 * The contact-form checks of js/app.js: `validateName`, `validateEmail`,
 * `validateConfirm` and the submit handler that runs all three.
 */
module ContactForm {
  import opened Text

  /** The WhiteSpace and LineTerminator characters of JavaScript, which `String.prototype.trim` removes. */
  predicate IsJsWhitespace(ch: char) {
    || ch == '\t' || ch == '\n' || ch == '\U{000B}' || ch == '\U{000C}' || ch == '\r' || ch == ' '
    || ch == '\U{00A0}' || ch == '\U{1680}' || ('\U{2000}' <= ch <= '\U{200A}')
    || ch == '\U{2028}' || ch == '\U{2029}' || ch == '\U{202F}' || ch == '\U{205F}'
    || ch == '\U{3000}' || ch == '\U{FEFF}'
  }

  /** `s` without its leading whitespace. */
  function TrimStart(s: string): (r: string)
    ensures |r| <= |s| && r == s[|s| - |r|..]
  {
    if s != [] && IsJsWhitespace(s[0]) then TrimStart(s[1..]) else s
  }

  /** `s` without its trailing whitespace. */
  function TrimEnd(s: string): (r: string)
    ensures |r| <= |s| && r == s[..|r|]
  {
    if s != [] && IsJsWhitespace(s[|s| - 1]) then TrimEnd(s[..|s| - 1]) else s
  }

  /** `s.trim()`. */
  function Trim(s: string): string {
    TrimEnd(TrimStart(s))
  }

  /** `TrimStart` removes whitespace only, and all of it up to the first other character. */
  lemma {:induction false} TrimStartRemovesWhitespace(s: string)
    ensures var r := TrimStart(s);
            && (r == [] || !IsJsWhitespace(r[0]))
            && forall k :: 0 <= k < |s| - |r| ==> IsJsWhitespace(s[k])
    decreases |s|
  {
    if s != [] && IsJsWhitespace(s[0]) {
      TrimStartRemovesWhitespace(s[1..]);
      var r := TrimStart(s);
      forall k | 1 <= k < |s| - |r| ensures IsJsWhitespace(s[k]) {
        assert s[k] == s[1..][k - 1];
      }
    }
  }

  /** `TrimEnd` removes whitespace only, and all of it back to the last other character. */
  lemma {:induction false} TrimEndRemovesWhitespace(s: string)
    ensures var r := TrimEnd(s);
            && (r == [] || !IsJsWhitespace(r[|r| - 1]))
            && forall k :: |r| <= k < |s| ==> IsJsWhitespace(s[k])
    decreases |s|
  {
    if s != [] && IsJsWhitespace(s[|s| - 1]) {
      var init := s[..|s| - 1];
      TrimEndRemovesWhitespace(init);
      var r := TrimEnd(s);
      forall k | |r| <= k < |s| - 1 ensures IsJsWhitespace(s[k]) {
        assert s[k] == init[k];
      }
    }
  }

  lemma TrimSlice(s: string) returns (i: nat, j: nat)
    ensures i == |s| - |TrimStart(s)| && i <= j <= |s| && Trim(s) == s[i..j]
  {
    var t := TrimStart(s);
    var e := TrimEnd(t);
    i := |s| - |t|;
    j := i + |e|;
    assert t == s[i..] && e == t[..|e|];
  }

  lemma TrimLeavesTrailingWhitespace(s: string, i: nat, j: nat)
    requires i == |s| - |TrimStart(s)| && i <= j <= |s| && Trim(s) == s[i..j]
    ensures forall k :: j <= k < |s| ==> IsJsWhitespace(s[k])
  {
    var t := TrimStart(s);
    TrimEndRemovesWhitespace(t);
    assert t == s[i..];
    forall k | j <= k < |s| ensures IsJsWhitespace(s[k]) {
      assert s[k] == t[k - i];
    }
  }

  lemma TrimEndsOnText(s: string, i: nat, j: nat)
    requires i == |s| - |TrimStart(s)| && i <= j <= |s| && Trim(s) == s[i..j]
    requires Trim(s) != []
    ensures !IsJsWhitespace(s[i]) && !IsJsWhitespace(s[j - 1])
  {
    var t := TrimStart(s);
    var e := TrimEnd(t);
    TrimStartRemovesWhitespace(s);
    TrimEndRemovesWhitespace(t);
    assert t == s[i..] && e == t[..|e|];
    assert s[i] == t[0] && s[j - 1] == e[|e| - 1];
  }

  /** The trimmed text is the slice `s[i..j]`, and everything outside it is whitespace. */
  lemma TrimIsSlice(s: string) returns (i: nat, j: nat)
    ensures i <= j <= |s| && Trim(s) == s[i..j]
    ensures forall k :: 0 <= k < i ==> IsJsWhitespace(s[k])
    ensures forall k :: j <= k < |s| ==> IsJsWhitespace(s[k])
    ensures Trim(s) == [] || (!IsJsWhitespace(s[i]) && !IsJsWhitespace(s[j - 1]))
  {
    i, j := TrimSlice(s);
    TrimStartRemovesWhitespace(s);
    TrimLeavesTrailingWhitespace(s, i, j);
    if Trim(s) != [] {
      TrimEndsOnText(s, i, j);
    }
  }

  predicate Contains(s: string, ch: char) {
    exists k :: 0 <= k < |s| && s[k] == ch
  }

  predicate HasDigit(s: string) {
    exists k :: 0 <= k < |s| && IsDigit(s[k])
  }

  /** `validateName`: the trimmed input is non-empty and holds no digit. */
  predicate ValidName(input: string) {
    var v := Trim(input);
    v != "" && !HasDigit(v)
  }

  /** A name is valid iff it has a character other than whitespace and has no digit anywhere. */
  lemma ValidNameIff(input: string)
    ensures ValidName(input) <==>
              (exists k :: 0 <= k < |input| && !IsJsWhitespace(input[k])) && !HasDigit(input)
  {
    var i, j := TrimIsSlice(input);
    var v := Trim(input);
    assert HasDigit(input) ==> HasDigit(v) by {
      if HasDigit(input) {
        var k :| 0 <= k < |input| && IsDigit(input[k]);
        assert i <= k < j;
        assert v[k - i] == input[k];
      }
    }
    assert HasDigit(v) ==> HasDigit(input) by {
      if HasDigit(v) {
        var k :| 0 <= k < |v| && IsDigit(v[k]);
        assert input[k + i] == v[k];
      }
    }
    assert v != "" <==> exists k :: 0 <= k < |input| && !IsJsWhitespace(input[k]) by {
      if v != "" {
        assert !IsJsWhitespace(input[i]);
      } else {
        forall k | 0 <= k < |input| ensures IsJsWhitespace(input[k]) {
          assert k < i || k >= j;
        }
      }
    }
  }

  /** `s.indexOf(ch)`: the index of the first `ch`, or -1. */
  function IndexOf(s: string, ch: char): (r: int)
    ensures -1 <= r < |s|
    ensures r == -1 <==> !Contains(s, ch)
    ensures r >= 0 ==> s[r] == ch && forall k :: 0 <= k < r ==> s[k] != ch
  {
    var i := Find(s, ch);
    if i < |s| then i else -1
  }

  /** The first `ch` stands after index 0 exactly when `s` contains `ch` and does not start with it. */
  lemma IndexOfPositive(s: string, ch: char)
    ensures IndexOf(s, ch) > 0 <==> s != [] && s[0] != ch && Contains(s, ch)
  {
  }

  /** `validateEmail`: in the trimmed input, the first `@` and the first `.` both stand after index 0. */
  predicate ValidEmail(input: string) {
    var v := Trim(input);
    IndexOf(v, '@') > 0 && IndexOf(v, '.') > 0
  }

  /** Trimming keeps every character other than whitespace. */
  lemma ContainsTrim(input: string, ch: char)
    requires !IsJsWhitespace(ch)
    ensures Contains(Trim(input), ch) <==> Contains(input, ch)
  {
    var i, j := TrimIsSlice(input);
    var v := Trim(input);
    assert Contains(input, ch) ==> Contains(v, ch) by {
      if Contains(input, ch) {
        var k :| 0 <= k < |input| && input[k] == ch;
        assert i <= k < j;
        assert v[k - i] == ch;
      }
    }
    assert Contains(v, ch) ==> Contains(input, ch) by {
      if Contains(v, ch) {
        var k :| 0 <= k < |v| && v[k] == ch;
        assert input[k + i] == ch;
      }
    }
  }

  /**
   * An address is valid iff it holds both an `@` and a `.`, and its first
   * character other than whitespace is neither of them.
   */
  lemma ValidEmailIff(input: string)
    ensures ValidEmail(input) <==>
              && Trim(input) != [] && Trim(input)[0] != '@' && Trim(input)[0] != '.'
              && Contains(input, '@') && Contains(input, '.')
  {
    var v := Trim(input);
    IndexOfPositive(v, '@');
    IndexOfPositive(v, '.');
    ContainsTrim(input, '@');
    ContainsTrim(input, '.');
  }

  /** What a submit leaves behind: an error shown per field, whether the message was sent, and the send button. */
  datatype SubmitOutcome = SubmitOutcome(
    nameError: bool, emailError: bool, confirmError: bool, sent: bool, sendDisabled: bool)

  /**
   * The submit handler: all three checks run (each sets its own error text, and
   * the confirm check sets the send button), and the form is sent only if all pass;
   * after a send the form is reset and the button disabled.
   */
  function Submit(name: string, email: string, confirmed: bool): (r: SubmitOutcome)
    ensures r.sent <==> ValidName(name) && ValidEmail(email) && confirmed
    ensures r.nameError <==> !ValidName(name)
    ensures r.emailError <==> !ValidEmail(email)
    ensures r.confirmError <==> !confirmed
    ensures r.sendDisabled <==> r.sent || !confirmed
  {
    var nameOk := ValidName(name);
    var emailOk := ValidEmail(email);
    var confirmOk := confirmed;
    var sent := nameOk && emailOk && confirmOk;
    SubmitOutcome(!nameOk, !emailOk, !confirmOk, sent, if sent then true else !confirmOk)
  }
}
