/** Small text operations shared by the modules that read names, cookies and codes. */
module Text {

  /** The pieces of `s` between occurrences of `sep`; never empty. */
  function Split(s: string, sep: char): (parts: seq<string>)
    ensures |parts| >= 1
    ensures forall p :: p in parts ==> sep !in p
  {
    if s == "" then [""]
    else
      var rest := Split(s[1..], sep);
      if s[0] == sep then [""] + rest else [[s[0]] + rest[0]] + rest[1..]
  }

  /** Splitting at a separator that `left` does not contain peels `left` off. */
  lemma {:induction false} SplitAt(left: string, sep: char, right: string)
    requires sep !in left
    ensures Split(left, sep) == [left]
    ensures Split(left + [sep] + right, sep) == [left] + Split(right, sep)
  {
    if left == "" {
      assert left + [sep] + right == [sep] + right;
    } else {
      SplitAt(left[1..], sep, right);
      assert left == [left[0]] + left[1..];
      assert (left + [sep] + right)[1..] == left[1..] + [sep] + right;
    }
  }

  predicate StartsWith(s: string, prefix: string) {
    prefix <= s
  }

  predicate IsDigit(c: char) { '0' <= c <= '9' }

  predicate IsUpper(c: char) { 'A' <= c <= 'Z' }

  predicate IsLower(c: char) { 'a' <= c <= 'z' }

  // ----- The ASCII letters and digits -----

  const LOWER: string := "abcdefghijklmnopqrstuvwxyz"

  const UPPER: string := "ABCDEFGHIJKLMNOPQRSTUVWXYZ"

  const DIGITS: string := "0123456789"

  const ALPHANUMERIC: string := DIGITS + LOWER + UPPER

  lemma LettersInOrder(k: nat)
    requires k < 26
    ensures LOWER[k] as int == 'a' as int + k && UPPER[k] as int == 'A' as int + k
  {
  }

  lemma DigitListed(c: char)
    ensures IsDigit(c) <==> c in DIGITS
  {
    assert DIGITS == ['0', '1', '2', '3', '4', '5', '6', '7', '8', '9'];
  }

  lemma LetterListed(c: char)
    ensures IsLower(c) <==> c in LOWER
    ensures IsUpper(c) <==> c in UPPER
  {
    if IsLower(c) {
      LettersInOrder(c as int - 'a' as int);
    }
    if IsUpper(c) {
      LettersInOrder(c as int - 'A' as int);
    }
    forall k | 0 <= k < 26
      ensures IsLower(LOWER[k]) && IsUpper(UPPER[k])
    {
      LettersInOrder(k);
    }
  }

  lemma AlphanumericListed(c: char)
    ensures IsDigit(c) || IsUpper(c) || IsLower(c) <==> c in ALPHANUMERIC
  {
    DigitListed(c);
    LetterListed(c);
  }

  // ----- Joining -----

  /** The words with single separators between them. */
  function Join(words: seq<string>, sep: char): string
    requires words != []
  {
    if |words| == 1 then words[0] else words[0] + [sep] + Join(words[1..], sep)
  }

  lemma {:induction false} JoinSplit(s: string, sep: char)
    ensures Join(Split(s, sep), sep) == s
  {
    if s != "" {
      var rest := Split(s[1..], sep);
      JoinSplit(s[1..], sep);
      if s[0] == sep {
        assert ([""] + rest)[1..] == rest;
      } else {
        var parts := [[s[0]] + rest[0]] + rest[1..];
        assert parts[1..] == rest[1..];
        if |rest| > 1 {
          assert [s[0]] + (rest[0] + [sep] + Join(rest[1..], sep)) == [s[0]] + rest[0] + [sep] + Join(rest[1..], sep);
        }
      }
    }
  }

  lemma {:induction false} SplitJoin(words: seq<string>, sep: char)
    requires words != [] && forall w :: w in words ==> sep !in w
    ensures Split(Join(words, sep), sep) == words
    decreases |words|
  {
    if |words| == 1 {
      SplitAt(words[0], sep, "");
    } else {
      SplitJoin(words[1..], sep);
      SplitAt(words[0], sep, Join(words[1..], sep));
      assert [words[0]] + words[1..] == words;
    }
  }
}
