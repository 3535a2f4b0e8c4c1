/** Recovery codes: how sixteen random bytes are shown, and which typed texts are taken
    for the same code. */
module RecoveryCodes {
  import opened Options
  import opened Text

  const CODE_LENGTH: nat := 32

  /** Dashes and ASCII white space are ignored in a typed code. */
  predicate Separator(c: char) {
    c == '-' || c == ' ' || c == '\t' || c == '\n' || c == '\r' || c as int == 12
  }

  function Upper(c: char): char {
    if IsLower(c) then (c as int - 32) as char else c
  }

  predicate HexDigit(c: char) {
    IsDigit(c) || 'A' <= c <= 'F' || 'a' <= c <= 'f'
  }

  /** The typed text without separators, in upper case. */
  function Squeezed(typed: string): string {
    if typed == "" then ""
    else if Separator(typed[0]) then Squeezed(typed[1..])
    else [Upper(typed[0])] + Squeezed(typed[1..])
  }

  function Normalize(typed: string): Option<string> {
    var code := Squeezed(typed);
    if |code| == CODE_LENGTH && forall k :: 0 <= k < |code| ==> HexDigit(code[k]) then Some(code) else None
  }

  // ----- Printing -----

  function HexChar(n: nat): char
    requires n < 16
  {
    if n < 10 then ('0' as int + n) as char else ('A' as int + n - 10) as char
  }

  predicate Bytes(bytes: seq<nat>) {
    forall k :: 0 <= k < |bytes| ==> bytes[k] < 256
  }

  /** Two upper-case digits per byte. */
  function Hex(bytes: seq<nat>): string
    requires Bytes(bytes)
  {
    if bytes == [] then ""
    else [HexChar(bytes[0] / 16), HexChar(bytes[0] % 16)] + Hex(bytes[1..])
  }

  /** The code as it is shown: four groups of eight digits. */
  function Display(code: string): string
    requires |code| == CODE_LENGTH
  {
    code[..8] + "-" + code[8..16] + "-" + code[16..24] + "-" + code[24..]
  }

  // ----- Which texts mean a code -----

  const HEX_DIGITS: string := "0123456789ABCDEF"

  /** A dash, tab, line feed, form feed, carriage return or space. */
  const SKIPPED: string := "-\t\n\U{000C}\r "

  predicate CanonicalDigits(code: string) {
    forall k :: 0 <= k < |code| ==> code[k] in HEX_DIGITS
  }

  predicate Canonical(code: string) {
    |code| == CODE_LENGTH && CanonicalDigits(code)
  }

  /** The same character, or a lower-case letter for its upper-case one. */
  predicate Matches(typed: char, digit: char) {
    typed == digit || exists k :: 0 <= k < |LOWER| && typed == LOWER[k] && digit == UPPER[k]
  }

  /** `typed` is `code` with letters in any case and skipped characters anywhere. */
  predicate Spells(typed: string, code: string) {
    if typed == "" then code == ""
    else if typed[0] in SKIPPED then Spells(typed[1..], code)
    else code != "" && Matches(typed[0], code[0]) && Spells(typed[1..], code[1..])
  }

  lemma SeparatorIsSkipped(c: char)
    ensures Separator(c) <==> c in SKIPPED
  {
    assert SKIPPED == ['-', '\t', '\n', 12 as char, '\r', ' '];
  }

  lemma HexDigitRange(c: char)
    ensures c in HEX_DIGITS <==> '0' <= c <= '9' || 'A' <= c <= 'F'
  {
    assert HEX_DIGITS == ['0', '1', '2', '3', '4', '5', '6', '7', '8', '9', 'A', 'B', 'C', 'D', 'E', 'F'];
  }

  lemma UpperMatches(typed: char, digit: char)
    requires digit in HEX_DIGITS
    ensures Upper(typed) == digit <==> Matches(typed, digit)
  {
    HexDigitRange(digit);
    if 'a' <= typed <= 'z' {
      LettersInOrder(typed as int - 'a' as int);
    }
    forall k | 0 <= k < |LOWER| && typed == LOWER[k] && digit == UPPER[k]
      ensures Upper(typed) == digit
    {
      LettersInOrder(k);
    }
  }

  lemma {:induction false} SqueezedSpells(typed: string, code: string)
    requires CanonicalDigits(code)
    ensures Spells(typed, code) <==> Squeezed(typed) == code
    decreases typed
  {
    if typed != "" {
      SeparatorIsSkipped(typed[0]);
      if Separator(typed[0]) {
        SqueezedSpells(typed[1..], code);
      } else if code != "" {
        UpperMatches(typed[0], code[0]);
        SqueezedSpells(typed[1..], code[1..]);
        assert code == [code[0]] + code[1..];
      }
    }
  }

  lemma {:induction false} SqueezedIsUpper(typed: string)
    ensures forall k :: 0 <= k < |Squeezed(typed)| ==> !IsLower(Squeezed(typed)[k])
  {
    if typed != "" {
      SqueezedIsUpper(typed[1..]);
    }
  }

  lemma HexDigitOrLower(c: char)
    ensures HexDigit(c) && !IsLower(c) <==> c in HEX_DIGITS
  {
    HexDigitRange(c);
  }

  /** A typed text is accepted as a code exactly when it spells that code in any case with
      any dashes or white space. */
  lemma NormalizesExactlySpellings(typed: string, code: string)
    ensures Normalize(typed) == Some(code) <==> Canonical(code) && Spells(typed, code)
  {
    SqueezedIsUpper(typed);
    var squeezed := Squeezed(typed);
    forall k | 0 <= k < |squeezed|
      ensures HexDigit(squeezed[k]) <==> squeezed[k] in HEX_DIGITS
    {
      HexDigitOrLower(squeezed[k]);
    }
    if Canonical(code) {
      SqueezedSpells(typed, code);
    }
  }

  lemma {:induction false} SpellsConcat(a: string, b: string, x: string, y: string)
    requires Spells(a, x) && Spells(b, y)
    ensures Spells(a + b, x + y)
    decreases a
  {
    if a == "" {
      assert a + b == b && x + y == y;
    } else {
      assert (a + b)[1..] == a[1..] + b;
      if a[0] in SKIPPED {
        SpellsConcat(a[1..], b, x, y);
      } else {
        SpellsConcat(a[1..], b, x[1..], y);
        assert (x + y)[1..] == x[1..] + y;
      }
    }
  }

  lemma {:induction false} SpellsItself(code: string)
    requires CanonicalDigits(code)
    ensures Spells(code, code)
  {
    if code != "" {
      HexDigitRange(code[0]);
      SeparatorIsSkipped(code[0]);
      SpellsItself(code[1..]);
    }
  }

  lemma DashAndGroup(shown: string, code: string, group: string)
    requires Spells(shown, code) && CanonicalDigits(group)
    ensures Spells(shown + "-" + group, code + group)
  {
    DashSpellsNothing();
    SpellsConcat(shown, "-", code, "");
    SpellsItself(group);
    SpellsConcat(shown + "-", group, code + "", group);
    assert code + "" == code;
  }

  lemma DashSpellsNothing()
    ensures Spells("-", "")
  {
    SeparatorIsSkipped('-');
    assert "-"[1..] == "";
  }

  /** What is shown spells the code. */
  lemma DisplaySpells(code: string)
    requires Canonical(code)
    ensures Spells(Display(code), code)
  {
    var a, b, c, d := code[..8], code[8..16], code[16..24], code[24..];
    GroupsSpell(a, b, c, d);
    assert a + b + c + d == code;
  }

  lemma GroupsSpell(a: string, b: string, c: string, d: string)
    requires CanonicalDigits(a) && CanonicalDigits(b) && CanonicalDigits(c) && CanonicalDigits(d)
    ensures Spells(a + "-" + b + "-" + c + "-" + d, a + b + c + d)
  {
    SpellsItself(a);
    DashAndGroup(a, a, b);
    DashAndGroup(a + "-" + b, a + b, c);
    DashAndGroup(a + "-" + b + "-" + c, a + b + c, d);
  }

  lemma {:induction false} HexIsCanonical(bytes: seq<nat>)
    requires Bytes(bytes)
    ensures |Hex(bytes)| == 2 * |bytes| && CanonicalDigits(Hex(bytes))
  {
    if bytes != [] {
      HexDigitRange(HexChar(bytes[0] / 16));
      HexDigitRange(HexChar(bytes[0] % 16));
      HexIsCanonical(bytes[1..]);
    }
  }

  lemma HexCharAt(n: nat)
    requires n < 16
    ensures HexChar(n) == HEX_DIGITS[n]
  {
    assert HEX_DIGITS == ['0', '1', '2', '3', '4', '5', '6', '7', '8', '9', 'A', 'B', 'C', 'D', 'E', 'F'];
  }

  /** Byte `k` is printed as its high and then its low hexadecimal digit. */
  lemma {:induction false} HexSpellsBytes(bytes: seq<nat>, k: nat)
    requires Bytes(bytes) && k < |bytes|
    ensures |Hex(bytes)| == 2 * |bytes|
    ensures exists high, low :: 0 <= high < 16 && 0 <= low < 16 && 16 * high + low == bytes[k]
                                && Hex(bytes)[2 * k] == HEX_DIGITS[high] && Hex(bytes)[2 * k + 1] == HEX_DIGITS[low]
    decreases |bytes|
  {
    HexIsCanonical(bytes);
    if k == 0 {
      var high, low := bytes[0] / 16, bytes[0] % 16;
      HexCharAt(high);
      HexCharAt(low);
      assert 16 * high + low == bytes[0];
      assert Hex(bytes)[0] == HEX_DIGITS[high] && Hex(bytes)[1] == HEX_DIGITS[low];
    } else {
      HexSpellsBytes(bytes[1..], k - 1);
      assert Hex(bytes)[2..] == Hex(bytes[1..]);
      assert Hex(bytes)[2 * k] == Hex(bytes[1..])[2 * (k - 1)];
      assert Hex(bytes)[2 * k + 1] == Hex(bytes[1..])[2 * (k - 1) + 1];
    }
  }

  /** The display is four groups of eight digits with single dashes between them. */
  lemma DisplayShape(code: string)
    requires |code| == CODE_LENGTH
    ensures var shown := Display(code);
            && |shown| == 35
            && shown[8] == shown[17] == shown[26] == '-'
            && shown[..8] + shown[9..17] + shown[18..26] + shown[27..] == code
  {
    assert code == code[..8] + code[8..16] + code[16..24] + code[24..];
  }

  /** Different random bytes give different codes. */
  lemma {:induction false} HexInjective(a: seq<nat>, b: seq<nat>)
    requires Bytes(a) && Bytes(b) && |a| == |b| && Hex(a) == Hex(b)
    ensures a == b
  {
    if a != [] {
      var ha, hb := Hex(a), Hex(b);
      assert ha[0] == hb[0] && ha[1] == hb[1];
      assert a[0] == 16 * (a[0] / 16) + a[0] % 16 && b[0] == 16 * (b[0] / 16) + b[0] % 16;
      assert ha[2..] == Hex(a[1..]) && hb[2..] == Hex(b[1..]);
      HexInjective(a[1..], b[1..]);
      assert a == [a[0]] + a[1..] && b == [b[0]] + b[1..];
    }
  }

  lemma ShownCodeReadsBack(bytes: seq<nat>)
    requires |bytes| == 16 && Bytes(bytes)
    ensures Canonical(Hex(bytes)) && Normalize(Display(Hex(bytes))) == Some(Hex(bytes))
  {
    HexIsCanonical(bytes);
    DisplaySpells(Hex(bytes));
    NormalizesExactlySpellings(Display(Hex(bytes)), Hex(bytes));
  }

  /** A code printed from sixteen bytes is read back as itself, from the display or from
      any other spelling of it. */
  lemma PrintedCodeReadsBack(bytes: seq<nat>, typed: string)
    requires |bytes| == 16 && Bytes(bytes)
    ensures Canonical(Hex(bytes))
    ensures Normalize(Display(Hex(bytes))) == Some(Hex(bytes))
    ensures Spells(typed, Hex(bytes)) ==> Normalize(typed) == Some(Hex(bytes))
  {
    ShownCodeReadsBack(bytes);
    NormalizesExactlySpellings(typed, Hex(bytes));
  }
}
