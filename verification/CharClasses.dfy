/** The classes of characters the program tells apart, written out character by character. */
module CharClasses {
  import opened Text
  import opened Escape

  /** What unicode.IsSpace and bufio.ScanWords take for white space. */
  const WHITE: set<char> := {
    '\t', '\n', '\U{0B}', '\U{0C}', '\r', ' ', '\U{85}', '\U{A0}', '\U{1680}',
    '\U{2000}', '\U{2001}', '\U{2002}', '\U{2003}', '\U{2004}', '\U{2005}', '\U{2006}', '\U{2007}', '\U{2008}',
    '\U{2009}', '\U{200A}', '\U{2028}', '\U{2029}', '\U{202F}', '\U{205F}', '\U{3000}'}

  /** What \s takes for white space in a regular expression. */
  const REGEXP_WHITE: set<char> := {'\t', '\n', '\U{0C}', '\r', ' '}

  const DIGITS := "0123456789"
  const CAPITALS := "ABCDEFGHIJKLMNOPQRSTUVWXYZ"
  const SMALL_LETTERS := "abcdefghijklmnopqrstuvwxyz"

  lemma SpaceIsWhite(c: char)
    ensures IsSpace(c) <==> c in WHITE
  {
  }

  lemma RegexpSpaceIsWhite(c: char)
    ensures IsRegexpSpace(c) <==> c in REGEXP_WHITE
  {
  }

  lemma DigitsAre(c: char)
    ensures IsDigit(c) <==> c in DIGITS
  {
    if IsDigit(c) {
      assert DIGITS[c as int - '0' as int] == c;
    }
  }

  lemma CapitalsAre(c: char)
    ensures 'A' <= c <= 'Z' <==> c in CAPITALS
  {
    if 'A' <= c <= 'Z' {
      assert CAPITALS[c as int - 'A' as int] == c;
    }
  }

  lemma SmallLettersAre(c: char)
    ensures 'a' <= c <= 'z' <==> c in SMALL_LETTERS
  {
    if 'a' <= c <= 'z' {
      assert SMALL_LETTERS[c as int - 'a' as int] == c;
    }
  }

  /** Letters, characters of ids, and characters of names. */
  lemma LettersAre(c: char)
    ensures IsLetter(c) <==> c in CAPITALS || c in SMALL_LETTERS
    ensures IsIDChar(c) <==> c in CAPITALS || c in DIGITS
    ensures IsNameChar(c) <==> c in CAPITALS || c in SMALL_LETTERS || c in DIGITS || c == '.' || c == '_' || c == '-'
  {
    DigitsAre(c);
    CapitalsAre(c);
    SmallLettersAre(c);
  }

  /** A Slack id. */
  predicate IsId(s: string) {
    s != "" && forall i :: 0 <= i < |s| ==> s[i] in CAPITALS || s[i] in DIGITS
  }

  /** A user name, or a part of the name of a repository. */
  predicate IsName(s: string) {
    s != "" && forall i :: 0 <= i < |s| ==>
      s[i] in CAPITALS || s[i] in SMALL_LETTERS || s[i] in DIGITS || s[i] == '.' || s[i] == '_' || s[i] == '-'
  }

  lemma IdsAre(s: string)
    ensures IsId(s) <==> AllIn(s, IsIDChar)
  {
    forall i | 0 <= i < |s|
      ensures IsIDChar(s[i]) <==> s[i] in CAPITALS || s[i] in DIGITS
    {
      LettersAre(s[i]);
    }
  }

  lemma NamesAre(s: string)
    ensures IsName(s) <==> AllIn(s, IsNameChar)
  {
    forall i | 0 <= i < |s|
      ensures IsNameChar(s[i]) <==>
        s[i] in CAPITALS || s[i] in SMALL_LETTERS || s[i] in DIGITS || s[i] == '.' || s[i] == '_' || s[i] == '-'
    {
      LettersAre(s[i]);
    }
  }
}
