/** Characters and numerals as Python's `str` and `int` treat them. */
module Text {
  import opened Wrappers

  /** The code points for which `str.isspace` holds. */
  predicate IsSpace(c: char) {
    var n := c as int;
    || 0x09 <= n <= 0x0d || 0x1c <= n <= 0x20 || n == 0x85 || n == 0xa0 || n == 0x1680
    || 0x2000 <= n <= 0x200a || n == 0x2028 || n == 0x2029 || n == 0x202f || n == 0x205f || n == 0x3000
  }

  predicate IsDigit(c: char) {
    '0' <= c <= '9'
  }

  predicate IsLetter(c: char) {
    'A' <= c <= 'Z' || 'a' <= c <= 'z'
  }

  predicate IdentStart(c: char) {
    IsLetter(c) || c == '_' || c == '$'
  }

  predicate IdentChar(c: char) {
    IdentStart(c) || IsDigit(c)
  }

  predicate IsIdentifier(s: string) {
    s != "" && IdentStart(s[0]) && forall i :: 0 <= i < |s| ==> IdentChar(s[i])
  }

  predicate AllDigits(s: string) {
    forall i :: 0 <= i < |s| ==> IsDigit(s[i])
  }

  predicate StartsWith(s: string, prefix: string) {
    prefix <= s
  }

  function SkipSpace(s: string): (rest: string)
    ensures |rest| <= |s|
    ensures rest != "" ==> !IsSpace(rest[0])
  {
    if s != "" && IsSpace(s[0]) then SkipSpace(s[1..]) else s
  }

  /** Dropping twice drops the sum. */
  lemma DropDrop<T>(s: seq<T>, a: nat, b: nat)
    requires a + b <= |s|
    ensures s[a..][b..] == s[a + b..]
  {
  }

  /** How many leading characters satisfy `IdentChar`. */
  function IdentPrefix(s: string): (n: nat)
    ensures n <= |s|
    ensures forall i :: 0 <= i < n ==> IdentChar(s[i])
    ensures n < |s| ==> !IdentChar(s[n])
  {
    if s != "" && IdentChar(s[0]) then 1 + IdentPrefix(s[1..]) else 0
  }

  function DigitPrefix(s: string): (n: nat)
    ensures n <= |s|
    ensures AllDigits(s[..n])
    ensures n < |s| ==> !IsDigit(s[n])
  {
    if s != "" && IsDigit(s[0]) then
      var n := 1 + DigitPrefix(s[1..]);
      assert forall i :: 1 <= i < n ==> s[i] == s[1..][..n - 1][i - 1];
      n
    else 0
  }

  /** Decimal value; characters that are not digits (underscores) are skipped. */
  function DigitsValue(s: string): nat {
    if s == "" then 0
    else
      var init := DigitsValue(s[..|s| - 1]);
      var last := s[|s| - 1];
      if IsDigit(last) then 10 * init + (last as int - '0' as int) else init
  }

  /** The digit strings `int` takes: single underscores may separate digits. */
  predicate IsNumeral(s: string) {
    && s != "" && IsDigit(s[0]) && IsDigit(s[|s| - 1])
    && (forall i :: 0 <= i < |s| ==> IsDigit(s[i]) || s[i] == '_')
    && (forall i :: 0 <= i < |s| - 1 ==> !(s[i] == '_' && s[i + 1] == '_'))
  }

  /** `int(s)` for text without sign or white space. */
  function NatOf(s: string): Result<nat> {
    if IsNumeral(s) then Ok(DigitsValue(s)) else Raised
  }

  function Strip(s: string): string {
    var l := SkipSpace(s);
    StripRight(l)
  }

  function StripRight(s: string): string {
    if s != "" && IsSpace(s[|s| - 1]) then StripRight(s[..|s| - 1]) else s
  }

  /** `int(s)`: surrounding white space and one sign are taken. */
  function IntOf(s: string): Result<int> {
    var t := Strip(s);
    if t != "" && t[0] == '-' then
      var n: int :- NatOf(t[1..]);
      Ok(-n)
    else if t != "" && t[0] == '+' then NatOf(t[1..])
    else NatOf(t)
  }

  predicate AllSpace(s: string) {
    forall i :: 0 <= i < |s| ==> IsSpace(s[i])
  }

  /** White space on both sides goes, and nothing else. */
  lemma {:induction false} StripSpaces(left: string, s: string, right: string)
    requires AllSpace(left) && AllSpace(right) && s != "" && !IsSpace(s[0]) && !IsSpace(s[|s| - 1])
    ensures Strip(left + s + right) == s
    decreases |left|
  {
    hide IsSpace;
    if left == "" {
      assert left + s + right == s + right && (s + right)[0] == s[0];
      StripRightSpaces(s, right);
    } else {
      var t := left + s + right;
      assert t[0] == left[0] && t[1..] == left[1..] + s + right;
      StripSpaces(left[1..], s, right);
    }
  }

  lemma {:induction false} StripRightSpaces(s: string, right: string)
    requires AllSpace(right) && s != "" && !IsSpace(s[|s| - 1])
    ensures StripRight(s + right) == s
    decreases |right|
  {
    hide IsSpace;
    var t, n := s + right, |right| - 1;
    if right == "" {
      assert t == s;
    } else {
      assert t[|t| - 1] == right[n] && t[..|t| - 1] == s + right[..n];
      StripRightSpaces(s, right[..n]);
    }
  }

  /** `str(n)` for any integer. */
  function IntText(n: int): (s: string)
    ensures s != "" && !IsSpace(s[0]) && !IsSpace(s[|s| - 1])
  {
    if n < 0 then "-" + Decimal(0 - n) else Decimal(n)
  }

  /** `int` takes back what `str` prints, a plus sign and blanks around it. */
  lemma IntOfText(left: string, n: int, right: string)
    requires AllSpace(left) && AllSpace(right)
    ensures IntOf(left + IntText(n) + right) == Ok(n)
    ensures n >= 0 ==> IntOf(left + ("+" + IntText(n)) + right) == Ok(n)
  {
    hide NatOf, AllSpace, IsSpace, Decimal;
    var s := IntText(n);
    DecimalValue(if n < 0 then 0 - n else n);
    StripSpaces(left, s, right);
    if n < 0 {
      assert s[1..] == Decimal(0 - n);
    } else {
      SignSpace();
      var plus := "+" + s;
      assert plus[0] == '+' && plus[|plus| - 1] == s[|s| - 1] && plus[1..] == s;
      StripSpaces(left, plus, right);
      assert IsDigit(s[0]);
    }
  }

  lemma SignSpace()
    ensures !IsSpace('+') && !IsSpace('-')
  {
  }

  /** `str(n)` for a natural number. */
  function Decimal(n: nat): (s: string)
    ensures s != "" && AllDigits(s)
    ensures s[0] == '0' ==> n == 0 && s == "0"
  {
    if n < 10 then [('0' as int + n) as char]
    else Decimal(n / 10) + [('0' as int + n % 10) as char]
  }

  lemma {:induction false} DecimalValue(n: nat)
    ensures DigitsValue(Decimal(n)) == n
    ensures NatOf(Decimal(n)) == Ok(n)
  {
    var s := Decimal(n);
    if n < 10 {
      assert s[..0] == "";
    } else {
      DecimalValue(n / 10);
      assert s[..|s| - 1] == Decimal(n / 10);
    }
  }

  /** A decimal numeral in the form `Decimal` prints: `[1-9][0-9]*` or `0`. */
  predicate IsCanonicalNumeral(s: string) {
    s != "" && AllDigits(s) && (s[0] == '0' ==> s == "0")
  }

  lemma {:induction false} CanonicalNumeralIsDecimal(s: string)
    requires IsCanonicalNumeral(s)
    ensures s == Decimal(DigitsValue(s))
    ensures |s| > 1 ==> DigitsValue(s) >= 10
    ensures s[0] != '0' ==> DigitsValue(s) > 0
  {
    if |s| == 1 {
      assert s[..0] == "";
      assert s == [s[0]];
    } else {
      var init, last := s[..|s| - 1], s[|s| - 1];
      assert IsCanonicalNumeral(init) && init[0] != '0';
      CanonicalNumeralIsDecimal(init);
      DecimalAppend(DigitsValue(init), last);
      assert s == init + [last];
    }
  }

  lemma DecimalAppend(n: nat, digit: char)
    requires n > 0 && IsDigit(digit)
    ensures Decimal(10 * n + (digit as int - '0' as int)) == Decimal(n) + [digit]
  {
  }

  /** A maximal identifier is cut exactly where a foreign character follows. */
  lemma {:induction false} IdentPrefixOfAppend(token: string, post: string)
    requires forall i :: 0 <= i < |token| ==> IdentChar(token[i])
    requires post == "" || !IdentChar(post[0])
    ensures IdentPrefix(token + post) == |token|
  {
    if token == "" {
      assert token + post == post;
    } else {
      assert (token + post)[1..] == token[1..] + post;
      IdentPrefixOfAppend(token[1..], post);
    }
  }

  lemma {:induction false} DigitPrefixOfAppend(digits: string, post: string)
    requires AllDigits(digits)
    requires post == "" || !IsDigit(post[0])
    ensures DigitPrefix(digits + post) == |digits|
  {
    if digits == "" {
      assert digits + post == post;
    } else {
      assert (digits + post)[1..] == digits[1..] + post;
      DigitPrefixOfAppend(digits[1..], post);
    }
  }

  /** Whether `c` occurs, and where first. */
  function IndexOf(s: string, c: char): (n: nat)
    ensures n <= |s|
    ensures n < |s| ==> s[n] == c
    ensures forall i :: 0 <= i < n ==> s[i] != c
  {
    if s == "" || s[0] == c then 0 else 1 + IndexOf(s[1..], c)
  }

  lemma {:induction false} IndexOfAppend(s: string, c: char, x: string)
    requires c !in s
    ensures IndexOf(s, c) == |s| && IndexOf(s + [c] + x, c) == |s|
  {
    var t := s + [c] + x;
    if s == "" {
      assert t[0] == c;
    } else {
      assert s[0] in s && t[1..] == s[1..] + [c] + x;
      IndexOfAppend(s[1..], c, x);
    }
  }

  /** `s.split(c)`. */
  function Split(s: string, c: char): (parts: seq<string>)
    ensures parts != []
    decreases |s|
  {
    var n := IndexOf(s, c);
    if n == |s| then [s] else [s[..n]] + Split(s[n + 1..], c)
  }

  /** Text order by code points, as Python compares. */
  predicate TextLess(a: string, b: string) {
    b != "" && (a == "" || a[0] < b[0] || (a[0] == b[0] && TextLess(a[1..], b[1..])))
  }

  /** The first texts differ at `k`, where `a` ends or has the smaller character. */
  predicate SmallerAt(a: string, b: string, k: nat) {
    k <= |a| && k < |b| && a[..k] == b[..k] && (k == |a| || a[k] < b[k])
  }

  lemma SmallerRest(a: string, b: string, k: nat)
    requires SmallerAt(a, b, k)
    ensures b != "" && (a != "" && a[0] >= b[0] ==> a[0] == b[0] && k > 0 && SmallerAt(a[1..], b[1..], k - 1))
  {
    if k > 0 {
      assert a[..k][0] == b[..k][0];
      assert a[1..][..k - 1] == a[..k][1..] && b[1..][..k - 1] == b[..k][1..];
    }
  }

  /** The order is decided at the first difference. */
  lemma {:induction false} TextLessIff(a: string, b: string)
    ensures TextLess(a, b) <==> exists k: nat :: SmallerAt(a, b, k)
  {
    if b != "" && (a == "" || a[0] < b[0]) {
      assert SmallerAt(a, b, 0);
    } else if b != "" && a[0] == b[0] {
      TextLessIff(a[1..], b[1..]);
      if TextLess(a[1..], b[1..]) {
        var k: nat :| SmallerAt(a[1..], b[1..], k);
        assert a[..k + 1] == [a[0]] + a[1..][..k] && b[..k + 1] == [b[0]] + b[1..][..k];
        assert SmallerAt(a, b, k + 1);
      }
    }
    forall k: nat | SmallerAt(a, b, k) ensures TextLess(a, b) {
      SmallerRest(a, b, k);
    }
  }

  lemma {:induction false} TextLessTotal(a: string, b: string)
    requires a != b && !TextLess(a, b)
    ensures TextLess(b, a)
  {
    if a != "" && b != "" && a[0] == b[0] {
      assert a == [a[0]] + a[1..] && b == [b[0]] + b[1..];
      TextLessTotal(a[1..], b[1..]);
    }
  }

  lemma {:induction false} TextLessIrreflexive(a: string)
    ensures !TextLess(a, a)
  {
    if a != "" {
      TextLessIrreflexive(a[1..]);
    }
  }

  lemma {:induction false} TextLessTransitive(a: string, b: string, c: string)
    requires TextLess(a, b) && TextLess(b, c)
    ensures TextLess(a, c)
  {
    if a != "" && a[0] == b[0] == c[0] {
      TextLessTransitive(a[1..], b[1..], c[1..]);
    }
  }

  /** `$` also matches in front of a line feed that ends the text. */
  function OneLine(s: string): (t: string)
    ensures |t| <= |s|
  {
    if s != "" && s[|s| - 1] == '\n' then s[..|s| - 1] else s
  }
}
