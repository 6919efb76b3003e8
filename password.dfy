/**
 * `password_is_strong`: one point for a length of at least 12 and one for each
 * character class present (lower case, upper case, digit, anything not
 * alphanumeric); three points make a password strong. The four per-character
 * tests are Python's `str.islower`, `isupper`, `isdigit` and `isalnum`, which
 * consult the Unicode database; that database is a parameter here.
 */
module Password {
  import opened Sequences

  /** The character tests the score uses. */
  datatype CharClasses = CharClasses(
    isLower: char -> bool,
    isUpper: char -> bool,
    isDigit: char -> bool,
    isAlnum: char -> bool)

  /** The classification restricted to ASCII, where every other character counts as a symbol. */
  const Ascii: CharClasses := CharClasses(
    c => 'a' <= c <= 'z',
    c => 'A' <= c <= 'Z',
    c => '0' <= c <= '9',
    c => 'a' <= c <= 'z' || 'A' <= c <= 'Z' || '0' <= c <= '9')

  /**
   * Lower case, upper case and digits are pairwise disjoint and alphanumeric. ASCII
   * has this property; Unicode does not (U+0345 is lower case and not alphanumeric).
   */
  predicate Disjoint(cc: CharClasses) {
    forall c ::
      !(cc.isLower(c) && cc.isUpper(c)) && !(cc.isLower(c) && cc.isDigit(c)) && !(cc.isUpper(c) && cc.isDigit(c)) &&
      (cc.isLower(c) || cc.isUpper(c) || cc.isDigit(c) ==> cc.isAlnum(c))
  }

  function IsSymbol(cc: CharClasses): char -> bool {
    c => !cc.isAlnum(c)
  }

  function Point(b: bool): nat { if b then 1 else 0 }

  /** The number of the four character classes that occur in `pw`. */
  function Classes(pw: string, cc: CharClasses): (n: nat)
    ensures n <= 4
  {
    Point(Any(pw, cc.isLower)) + Point(Any(pw, cc.isUpper)) + Point(Any(pw, cc.isDigit)) + Point(Any(pw, IsSymbol(cc)))
  }

  /** The score of `systemproper.py` lines 77-84. */
  function Score(pw: string, cc: CharClasses): (n: nat)
    ensures n <= 5
  {
    Point(|pw| >= 12) + Classes(pw, cc)
  }

  /** `systemproper.py` line 85: three points make a password strong. */
  function PasswordIsStrong(pw: string, cc: CharClasses): (strong: bool)
    // length alone never suffices: a strong password has two classes, and three classes always suffice
    ensures strong ==> Classes(pw, cc) >= 2
    ensures Classes(pw, cc) >= 3 ==> strong
  {
    Score(pw, cc) >= 3
  }

  /** Lower case, upper case and a digit are strong at any length. */
  lemma ThreeClassesAreStrong(pw: string, cc: CharClasses)
    requires Any(pw, cc.isLower) && Any(pw, cc.isUpper) && Any(pw, cc.isDigit)
    ensures PasswordIsStrong(pw, cc)
  {
  }

  /** The empty password is weak. */
  lemma EmptyIsWeak(cc: CharClasses)
    ensures !PasswordIsStrong("", cc)
  {
  }

  /** Below 12 characters three classes are needed, from 12 on two are enough. */
  lemma StrongByLength(pw: string, cc: CharClasses)
    ensures |pw| < 12 ==> (PasswordIsStrong(pw, cc) <==> Classes(pw, cc) >= 3)
    ensures |pw| >= 12 ==> (PasswordIsStrong(pw, cc) <==> Classes(pw, cc) >= 2)
  {
  }

  /** A class present in `pw` is present in any extension of it. */
  lemma {:induction false} AnyExtends(pw: string, more: string, p: char -> bool)
    requires Any(pw, p)
    ensures Any(pw + more, p)
  {
    var i :| 0 <= i < |pw| && p(pw[i]);
    assert (pw + more)[i] == pw[i];
  }

  /** Appending characters never turns a strong password weak. */
  lemma AppendKeepsStrong(pw: string, more: string, cc: CharClasses)
    requires PasswordIsStrong(pw, cc)
    ensures PasswordIsStrong(pw + more, cc)
  {
    if Any(pw, cc.isLower) { AnyExtends(pw, more, cc.isLower); }
    if Any(pw, cc.isUpper) { AnyExtends(pw, more, cc.isUpper); }
    if Any(pw, cc.isDigit) { AnyExtends(pw, more, cc.isDigit); }
    if Any(pw, IsSymbol(cc)) { AnyExtends(pw, more, IsSymbol(cc)); }
  }

  /** Three disjoint classes present in `pw` need three distinct positions. */
  lemma ThreeDisjointClasses(pw: string, p1: char -> bool, p2: char -> bool, p3: char -> bool)
    requires Any(pw, p1) && Any(pw, p2) && Any(pw, p3)
    requires forall c :: !(p1(c) && p2(c)) && !(p1(c) && p3(c)) && !(p2(c) && p3(c))
    ensures |pw| >= 3
  {
    var i :| 0 <= i < |pw| && p1(pw[i]);
    var j :| 0 <= j < |pw| && p2(pw[j]);
    var k :| 0 <= k < |pw| && p3(pw[k]);
    assert i != j && i != k && j != k;
  }

  /** When the classes are disjoint, a strong password has at least 3 characters. */
  lemma StrongIsAtLeastThreeLong(pw: string, cc: CharClasses)
    requires Disjoint(cc)
    requires PasswordIsStrong(pw, cc)
    ensures |pw| >= 3
  {
    if |pw| < 12 {
      var lower, upper, digit, symbol := Any(pw, cc.isLower), Any(pw, cc.isUpper), Any(pw, cc.isDigit), Any(pw, IsSymbol(cc));
      if lower && upper && digit {
        ThreeDisjointClasses(pw, cc.isLower, cc.isUpper, cc.isDigit);
      } else if lower && upper && symbol {
        ThreeDisjointClasses(pw, cc.isLower, cc.isUpper, IsSymbol(cc));
      } else if lower && digit && symbol {
        ThreeDisjointClasses(pw, cc.isLower, cc.isDigit, IsSymbol(cc));
      } else {
        ThreeDisjointClasses(pw, cc.isUpper, cc.isDigit, IsSymbol(cc));
      }
    }
  }

  /**
   * Without disjointness the bound fails: a character that is both lower case and
   * not alphanumeric, next to an upper-case one, scores three in two characters.
   */
  lemma OverlappingClassesShortStrong(cc: CharClasses, a: char, b: char)
    requires cc.isLower(a) && !cc.isAlnum(a) && cc.isUpper(b)
    ensures PasswordIsStrong([a, b], cc)
  {
    assert [a, b][0] == a && [a, b][1] == b;
  }

  /** Sample passwords under the ASCII classification. */
  lemma AsciiExamples()
    ensures Disjoint(Ascii)
    ensures PasswordIsStrong("abC1", Ascii)
    ensures !PasswordIsStrong("abcdefgh", Ascii)
    ensures PasswordIsStrong("abcdefghijk!", Ascii)
  {
    var s := "abC1";
    assert Ascii.isLower(s[0]) && Ascii.isUpper(s[2]) && Ascii.isDigit(s[3]);
    var t := "abcdefghijk!";
    assert Ascii.isLower(t[0]) && IsSymbol(Ascii)(t[11]);
    var w := "abcdefgh";
    assert forall i :: 0 <= i < |w| ==> Ascii.isLower(w[i]);
  }
}
