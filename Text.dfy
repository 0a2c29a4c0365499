/**
 * Plain string operations that the two table screens rely on: ASCII lower-casing,
 * substring search (`String.prototype.includes`), the whitespace set of
 * `String.prototype.trim`, the JavaScript `<` on strings and the decimal rendering
 * of an integer (`Number.prototype.toString`).
 */
module Text {

  // ---------------------------------------------------------------------------
  // Lower-casing (ASCII only)
  // ---------------------------------------------------------------------------

  function LowerChar(c: char): (d: char)
    ensures 'A' <= c <= 'Z' ==> d as int == c as int + 32
    ensures !('A' <= c <= 'Z') ==> d == c
    ensures !('A' <= d <= 'Z')
  {
    if 'A' <= c <= 'Z' then (c as int + 32) as char else c
  }

  /** `toLowerCase`, restricted to the ASCII letters. */
  function Lower(s: string): (r: string)
    ensures |r| == |s|
    ensures forall i :: 0 <= i < |s| ==> r[i] == LowerChar(s[i])
  {
    seq(|s|, i requires 0 <= i < |s| => LowerChar(s[i]))
  }

  /** Lower-casing twice is lower-casing once. */
  lemma LowerIdempotent(s: string)
    ensures Lower(Lower(s)) == Lower(s)
  {
    var once := Lower(s);
    var twice := Lower(once);
    assert |twice| == |once|;
    forall i | 0 <= i < |once|
      ensures twice[i] == once[i]
    {
      assert once[i] == LowerChar(s[i]);
    }
  }

  // ---------------------------------------------------------------------------
  // Substring search
  // ---------------------------------------------------------------------------

  predicate IsPrefix(p: string, s: string) {
    |p| <= |s| && s[..|p|] == p
  }

  /** `s.includes(sub)`: `sub` occurs in `s` starting at some position. */
  predicate Contains(s: string, sub: string)
    decreases |s|
  {
    IsPrefix(sub, s) || (|s| > 0 && Contains(s[1..], sub))
  }

  /** `sub` occurs in `s` starting at offset `i`. */
  predicate OccursAt(s: string, sub: string, i: int) {
    0 <= i && i + |sub| <= |s| && s[i..i + |sub|] == sub
  }

  /** Every string includes the empty string. */
  lemma ContainsEmpty(s: string)
    ensures Contains(s, "")
  {
    assert IsPrefix("", s);
  }

  /** `Contains` holds exactly when `sub` occurs in `s` at some offset. */
  lemma {:induction false} ContainsAt(s: string, sub: string)
    ensures Contains(s, sub) <==> exists i :: OccursAt(s, sub, i)
    decreases |s|
  {
    if IsPrefix(sub, s) {
      assert OccursAt(s, sub, 0);
    } else if |s| > 0 {
      var t := s[1..];
      ContainsAt(t, sub);
      if exists i :: OccursAt(t, sub, i) {
        var i :| OccursAt(t, sub, i);
        assert s[i + 1..i + 1 + |sub|] == t[i..i + |sub|];
        assert OccursAt(s, sub, i + 1);
      }
      if exists i :: OccursAt(s, sub, i) {
        var i :| OccursAt(s, sub, i);
        if i > 0 {
          assert t[i - 1..i - 1 + |sub|] == s[i..i + |sub|];
          assert OccursAt(t, sub, i - 1);
        }
      }
    }
  }

  // ---------------------------------------------------------------------------
  // Whitespace and trim
  // ---------------------------------------------------------------------------

  /**
   * The characters `String.prototype.trim` removes: the ECMAScript WhiteSpace
   * code points (tab, vertical tab, form feed, space, no-break space, the byte
   * order mark and the Unicode space separators) and the LineTerminator code
   * points (line feed, carriage return, line and paragraph separators).
   */
  predicate IsWhitespace(c: char) {
    var n := c as int;
    n == 0x09 || n == 0x0A || n == 0x0B || n == 0x0C || n == 0x0D ||
    n == 0x20 || n == 0xA0 || n == 0x1680 || (0x2000 <= n <= 0x200A) ||
    n == 0x2028 || n == 0x2029 || n == 0x202F || n == 0x205F ||
    n == 0x3000 || n == 0xFEFF
  }

  predicate AllWhitespace(s: string) {
    forall i :: 0 <= i < |s| ==> IsWhitespace(s[i])
  }

  function TrimStart(s: string): (r: string)
    ensures |r| <= |s| && r == s[|s| - |r|..]
    ensures |r| > 0 ==> !IsWhitespace(r[0])
    ensures AllWhitespace(s[..|s| - |r|])
    decreases |s|
  {
    if |s| > 0 && IsWhitespace(s[0]) then TrimStart(s[1..]) else s
  }

  function TrimEnd(s: string): (r: string)
    ensures |r| <= |s| && r == s[..|r|]
    ensures |r| > 0 ==> !IsWhitespace(r[|r| - 1])
    ensures AllWhitespace(s[|r|..])
    decreases |s|
  {
    if |s| > 0 && IsWhitespace(s[|s| - 1]) then TrimEnd(s[..|s| - 1]) else s
  }

  /** `r` occurs in `s` at offset `k`, with only whitespace before and after it. */
  predicate TrimmedAt(s: string, r: string, k: int) {
    OccursAt(s, r, k) && AllWhitespace(s[..k]) && AllWhitespace(s[k + |r|..])
  }

  /** `s.trim()`: drop the leading and the trailing whitespace. */
  function Trim(s: string): (r: string)
    ensures |r| > 0 ==> !IsWhitespace(r[0]) && !IsWhitespace(r[|r| - 1])
    ensures exists k :: TrimmedAt(s, r, k)
  {
    var t := TrimStart(s);
    var r := TrimEnd(t);
    TrimmedPlacement(s, t, r);
    r
  }

  /**
   * Dropping whitespace from the front of `s` to get `t`, then from the back of
   * `t` to get `r`, leaves `r` between whitespace in `s`.
   */
  lemma TrimmedPlacement(s: string, t: string, r: string)
    requires |t| <= |s| && t == s[|s| - |t|..] && AllWhitespace(s[..|s| - |t|])
    requires |r| <= |t| && r == t[..|r|] && AllWhitespace(t[|r|..])
    ensures TrimmedAt(s, r, |s| - |t|)
  {
    var k := |s| - |t|;
    assert r == t[..|r|];
    assert s[k..k + |r|] == r by {
      forall i | 0 <= i < |r|
        ensures s[k..k + |r|][i] == r[i]
      {
        assert t[i] == s[k + i];
      }
    }
    var tail, after := t[|r|..], s[k + |r|..];
    assert AllWhitespace(tail);
    forall i | 0 <= i < |after|
      ensures IsWhitespace(after[i])
    {
      assert after[i] == s[k + |r| + i] == t[|r| + i] == tail[i];
    }
  }

  /** `!s.trim()`: the trimmed string is empty, hence falsy. */
  predicate IsBlank(s: string) {
    Trim(s) == ""
  }

  /** A string is blank exactly when every one of its characters is whitespace. */
  lemma BlankIffAllWhitespace(s: string)
    ensures IsBlank(s) <==> AllWhitespace(s)
  {
    if IsBlank(s) {
      var k :| TrimmedAt(s, "", k);
      forall i | 0 <= i < |s|
        ensures IsWhitespace(s[i])
      {
        if i < k {
          assert s[..k][i] == s[i];
        } else {
          assert s[k..][i - k] == s[i];
        }
      }
    }
    if AllWhitespace(s) {
      TrimStartWhitespace(s);
    }
  }

  /** `trimStart` of a string made only of whitespace drops all of it. */
  lemma {:induction false} TrimStartWhitespace(s: string)
    requires AllWhitespace(s)
    ensures TrimStart(s) == ""
    decreases |s|
  {
    if |s| > 0 {
      assert forall i :: 0 <= i < |s| - 1 ==> s[1..][i] == s[i + 1];
      TrimStartWhitespace(s[1..]);
    }
  }

  // ---------------------------------------------------------------------------
  // JavaScript `<` on strings
  // ---------------------------------------------------------------------------

  /** Lexicographic order on characters; a proper prefix comes first. */
  predicate StrLess(a: string, b: string)
    decreases |a|
  {
    if |b| == 0 then false
    else if |a| == 0 then true
    else if a[0] != b[0] then a[0] < b[0]
    else StrLess(a[1..], b[1..])
  }

  lemma {:induction false} StrLessIrreflexive(a: string)
    ensures !StrLess(a, a)
    decreases |a|
  {
    if |a| > 0 {
      StrLessIrreflexive(a[1..]);
    }
  }

  lemma {:induction false} StrLessAsymmetric(a: string, b: string)
    ensures StrLess(a, b) ==> !StrLess(b, a)
    decreases |a|
  {
    if |a| > 0 && |b| > 0 && a[0] == b[0] {
      StrLessAsymmetric(a[1..], b[1..]);
    }
  }

  lemma {:induction false} StrLessTransitive(a: string, b: string, c: string)
    ensures StrLess(a, b) && StrLess(b, c) ==> StrLess(a, c)
    decreases |a|
  {
    if |a| > 0 && |b| > 0 && |c| > 0 && a[0] == b[0] && b[0] == c[0] {
      StrLessTransitive(a[1..], b[1..], c[1..]);
    }
  }

  lemma {:induction false} StrLessTotal(a: string, b: string)
    ensures a != b ==> StrLess(a, b) || StrLess(b, a)
    decreases |a|
  {
    if |a| > 0 && |b| > 0 && a[0] == b[0] {
      StrLessTotal(a[1..], b[1..]);
      if a[1..] == b[1..] {
        assert a == [a[0]] + a[1..] && b == [b[0]] + b[1..];
      }
    }
  }

  // ---------------------------------------------------------------------------
  // Decimal rendering of integers
  // ---------------------------------------------------------------------------

  function Digit(d: nat): (c: char)
    requires d < 10
    ensures '0' <= c <= '9'
    ensures c as int - '0' as int == d
  {
    ('0' as int + d) as char
  }

  predicate IsDigits(s: string) {
    forall i :: 0 <= i < |s| ==> '0' <= s[i] <= '9'
  }

  /** The number a string of decimal digits denotes, most significant digit first. */
  function DigitsValue(s: string): int
    decreases |s|
  {
    if s == [] then 0
    else DigitsValue(s[..|s| - 1]) * 10 + (s[|s| - 1] as int - '0' as int)
  }

  /** The shortest decimal rendering of `n`: its digits, without leading zeros. */
  function NatToString(n: nat): (r: string)
    ensures |r| > 0 && IsDigits(r)
    ensures DigitsValue(r) == n
    ensures r[0] == '0' ==> r == "0"
    decreases n
  {
    if n < 10 then [Digit(n)]
    else
      var prefix := NatToString(n / 10);
      var r := prefix + [Digit(n % 10)];
      assert r[..|r| - 1] == prefix;
      r
  }

  /** `n.toString()` for an integer `n`: a minus sign for negatives, then the digits. */
  function IntToString(n: int): (r: string)
    ensures |r| > 0
    ensures n >= 0 ==> IsDigits(r) && DigitsValue(r) == n && (r[0] == '0' ==> r == "0")
    ensures n < 0 ==> r[0] == '-' && |r| > 1 && IsDigits(r[1..]) && DigitsValue(r[1..]) == -n && r[1] != '0'
  {
    if n < 0 then
      var digits := NatToString(-n);
      assert ("-" + digits)[1..] == digits;
      "-" + digits
    else NatToString(n)
  }

  /** Different integers render as different strings. */
  lemma IntToStringInjective(m: int, n: int)
    ensures IntToString(m) == IntToString(n) ==> m == n
  {
  }
}
