/**
 * The string operations the site uses: `toLowerCase`, `includes`, `replace`
 * with a string pattern (first occurrence only), and the decimal rendering of
 * a number inside a template literal.
 */
module Text {

  /** Upper-case letters of Basic Latin and Latin-1 (U+00C0..U+00DE without the sign U+00D7). */
  predicate IsUpper(c: char)
  {
    ('A' <= c <= 'Z') || ('\U{C0}' <= c <= '\U{DE}' && c != '\U{D7}')
  }

  /** `toLowerCase` on one character of Basic Latin or Latin-1; other characters are kept. */
  function LowerChar(c: char): (d: char)
    ensures !IsUpper(d)
    ensures !IsUpper(c) ==> d == c
    ensures IsUpper(c) ==> d as int == c as int + 32
  {
    if IsUpper(c) then (c as int + 32) as char else c
  }

  /** `String.prototype.toLowerCase`, character by character. */
  function Lower(s: string): (r: string)
    ensures |r| == |s|
    ensures forall i :: 0 <= i < |s| ==> r[i] == LowerChar(s[i])
  {
    seq(|s|, i requires 0 <= i < |s| => LowerChar(s[i]))
  }

  /** Lower-casing is idempotent: a lowered string has nothing left to lower. */
  lemma LowerIdempotent(s: string)
    ensures Lower(Lower(s)) == Lower(s)
  {
    var l := Lower(s);
    assert forall i :: 0 <= i < |l| ==> !IsUpper(l[i]);
  }

  /** A string with no upper-case letter is its own lower case. */
  lemma LowerOfLower(s: string)
    requires forall i :: 0 <= i < |s| ==> !IsUpper(s[i])
    ensures Lower(s) == s
  {
  }

  /** Lower-casing works piece by piece. */
  lemma LowerConcat(a: string, b: string)
    ensures Lower(a + b) == Lower(a) + Lower(b)
  {
  }

  /** An upper-case letter lowers to the letter 32 code points above it. */
  lemma LowerUpperLetter(c: char, d: char)
    requires IsUpper(c) && d as int == c as int + 32
    ensures Lower([c]) == [d]
  {
  }

  /** `q` occurs in `s` starting at position `i`. */
  predicate OccursAt(s: string, q: string, i: nat)
  {
    i + |q| <= |s| && s[i..i + |q|] == q
  }

  /** `String.prototype.includes`: `q` is a substring of `s` (the empty string is in every string). */
  predicate Contains(s: string, q: string)
  {
    exists i: nat :: i <= |s| && OccursAt(s, q, i)
  }

  lemma ContainsSelf(s: string)
    ensures Contains(s, s)
  {
    assert OccursAt(s, s, 0);
  }

  lemma ContainsEmpty(s: string)
    ensures Contains(s, "")
  {
    assert OccursAt(s, "", 0);
  }

  /** A string is a substring of any string built around it. */
  lemma ContainsMiddle(a: string, b: string, c: string)
    ensures Contains(a + b + c, b)
  {
    var s := a + b + c;
    assert s[|a|..|a| + |b|] == b;
    assert OccursAt(s, b, |a|);
  }

  /** A substring of either part is a substring of the whole. */
  lemma ContainsInConcat(a: string, b: string, q: string)
    ensures Contains(a, q) ==> Contains(a + b, q)
    ensures Contains(b, q) ==> Contains(a + b, q)
  {
    if Contains(a, q) {
      var i: nat :| i <= |a| && OccursAt(a, q, i);
      assert (a + b)[i..i + |q|] == a[i..i + |q|];
      assert OccursAt(a + b, q, i);
    }
    if Contains(b, q) {
      var i: nat :| i <= |b| && OccursAt(b, q, i);
      assert (a + b)[|a| + i..|a| + i + |q|] == b[i..i + |q|];
      assert OccursAt(a + b, q, |a| + i);
    }
  }

  /** The pieces of a template literal joined in order. */
  function Concat(parts: seq<string>): string
  {
    if parts == [] then "" else parts[0] + Concat(parts[1..])
  }

  /** Whatever one piece contains, the joined text contains. */
  lemma {:induction false} ConcatShowsPart(parts: seq<string>, k: nat, q: string)
    requires k < |parts| && Contains(parts[k], q)
    ensures Contains(Concat(parts), q)
    decreases k
  {
    if k > 0 {
      ConcatShowsPart(parts[1..], k - 1, q);
    }
    ContainsInConcat(parts[0], Concat(parts[1..]), q);
  }

  /** The index of the first occurrence of `c` in `s`, or `|s|` when there is none. */
  function IndexOf(s: string, c: char): (k: nat)
    ensures k <= |s|
    ensures c !in s[..k]
    ensures k < |s| ==> s[k] == c
  {
    if s == [] then 0
    else if s[0] == c then 0
    else 1 + IndexOf(s[1..], c)
  }

  /**
   * `String.prototype.replace` with a one-character string pattern: only the
   * first occurrence of `from` is replaced.
   */
  function ReplaceFirst(s: string, from: char, to: char): (r: string)
    ensures |r| == |s|
    ensures from !in s ==> r == s
    ensures forall i :: 0 <= i < |s| ==> r[i] == (if s[i] == from && from !in s[..i] then to else s[i])
  {
    var k := IndexOf(s, from);
    if k == |s| then
      assert s[..k] == s;
      s
    else
      assert forall i :: k < i <= |s| ==> s[k] in s[..i];
      s[..k] + [to] + s[k + 1..]
  }

  /** Only the first `from` is replaced: the part before it has none, the part after it is kept as is. */
  lemma ReplaceFirstAt(a: string, b: string, from: char, to: char)
    requires from !in a
    ensures ReplaceFirst(a + [from] + b, from, to) == a + [to] + b
  {
    var s := a + [from] + b;
    var k := IndexOf(s, from);
    assert s[|a|] == from && s[..|a|] == a;
    assert k == |a| && s[..k] == a && s[k + 1..] == b;
  }

  predicate IsDigit(c: char)
  {
    '0' <= c <= '9'
  }

  function DigitChar(d: nat): (c: char)
    requires d < 10
    ensures IsDigit(c)
  {
    ('0' as int + d) as char
  }

  /** The decimal text of a non-negative number, as a template literal writes it. */
  function NatToString(n: nat): (r: string)
    ensures |r| >= 1
    ensures forall i :: 0 <= i < |r| ==> IsDigit(r[i])
  {
    if n < 10 then [DigitChar(n)] else NatToString(n / 10) + [DigitChar(n % 10)]
  }

  /** The number a string of decimal digits denotes, read from the most significant digit. */
  function DigitsValue(ds: string): nat
    requires forall i :: 0 <= i < |ds| ==> IsDigit(ds[i])
  {
    if ds == [] then 0
    else
      assert IsDigit(ds[|ds| - 1]);
      DigitsValue(ds[..|ds| - 1]) * 10 + (ds[|ds| - 1] as int - '0' as int)
  }

  /** Reading back the rendered digits gives the number: the rendering loses nothing. */
  lemma {:induction false} NatToStringRoundTrip(n: nat)
    ensures DigitsValue(NatToString(n)) == n
    decreases n
  {
    var r := NatToString(n);
    if n >= 10 {
      NatToStringRoundTrip(n / 10);
      assert r[..|r| - 1] == NatToString(n / 10);
    }
  }

  /** The length of the longest prefix of `s` made of digits. */
  function LeadingDigits(s: string): (k: nat)
    ensures k <= |s|
    ensures forall i :: 0 <= i < k ==> IsDigit(s[i])
    ensures k < |s| ==> !IsDigit(s[k])
  {
    if s != [] && IsDigit(s[0]) then 1 + LeadingDigits(s[1..]) else 0
  }

  /** The digit prefix of a number's text followed by a non-digit is exactly that text. */
  lemma {:induction false} LeadingDigitsOfDigits(ds: string, rest: string)
    requires forall i :: 0 <= i < |ds| ==> IsDigit(ds[i])
    requires rest == [] || !IsDigit(rest[0])
    ensures LeadingDigits(ds + rest) == |ds|
    decreases |ds|
  {
    if ds != [] {
      assert (ds + rest)[1..] == ds[1..] + rest;
      LeadingDigitsOfDigits(ds[1..], rest);
    }
  }
}
