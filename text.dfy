/** The string operations the handlers use: lower-casing, prefix and substring tests,
    `split(' ')[1]`, and decimal rendering and parsing of ids. */
module Text {
  import opened Base

  predicate IsUpper(c: char)
  {
    'A' <= c <= 'Z'
  }

  /** `toLowerCase` on one character, for the ASCII letters. */
  function LowerChar(c: char): (r: char)
    ensures !IsUpper(r)
    ensures !IsUpper(c) ==> r == c
  {
    if IsUpper(c) then (c as int + 32) as char else c
  }

  /** `toLowerCase` on the ASCII letters: same length, no upper-case letter left. */
  function Lower(s: string): (r: string)
    ensures |r| == |s|
    ensures forall i :: 0 <= i < |r| ==> !IsUpper(r[i])
    ensures (forall i :: 0 <= i < |s| ==> !IsUpper(s[i])) ==> r == s
  {
    seq(|s|, i requires 0 <= i < |s| => LowerChar(s[i]))
  }

  /** Lower-casing twice is lower-casing once. */
  lemma LowerIdempotent(s: string)
    ensures Lower(Lower(s)) == Lower(s)
  {
  }

  /** `s.startsWith(prefix)`. */
  predicate StartsWith(s: string, prefix: string)
  {
    |prefix| <= |s| && s[..|prefix|] == prefix
  }

  /** `sub` occurs in `s` starting at position `i`. */
  predicate OccursAt(s: string, sub: string, i: nat)
  {
    i + |sub| <= |s| && forall k :: 0 <= k < |sub| ==> s[i + k] == sub[k]
  }

  lemma OccursShift(s: string, sub: string)
    requires |s| > 0
    ensures forall i: nat :: OccursAt(s, sub, i + 1) <==> OccursAt(s[1..], sub, i)
  {
  }

  /** `s.includes(sub)`, by scanning the start positions left to right. */
  function Contains(s: string, sub: string): (r: bool)
    ensures r <==> exists i: nat :: OccursAt(s, sub, i)
    decreases |s|
  {
    if StartsWith(s, sub) then
      assert OccursAt(s, sub, 0) by {
        forall k | 0 <= k < |sub| ensures s[k] == sub[k] {
          assert s[..|sub|][k] == s[k];
        }
      }
      true
    else if |s| == 0 then
      assert forall i: nat :: !OccursAt(s, sub, i);
      false
    else
      OccursShift(s, sub);
      var r := Contains(s[1..], sub);
      assert r ==> (exists i: nat :: OccursAt(s, sub, i)) by {
        if r {
          var k: nat :| OccursAt(s[1..], sub, k);
          assert OccursAt(s, sub, k + 1);
        }
      }
      assert (exists i: nat :: OccursAt(s, sub, i)) ==> r by {
        if exists i: nat :: OccursAt(s, sub, i) {
          var i: nat :| OccursAt(s, sub, i);
          assert OccursAt(s[1..], sub, i - 1);
        }
      }
      r
  }

  /** Position of the first `c` in `s`. */
  function IndexOf(s: string, c: char): (r: Option<nat>)
    ensures r.None? <==> c !in s
    ensures r.Some? ==> r.value < |s| && s[r.value] == c && c !in s[..r.value]
  {
    if |s| == 0 then None
    else if s[0] == c then Some(0)
    else match IndexOf(s[1..], c)
      case None => None
      case Some(k) =>
        assert s[..k + 1] == [s[0]] + s[1..][..k];
        Some(k + 1)
  }

  /** `s.split(' ')[1]`: the text between the first space and the next space (or the end);
      absent when `s` has no space. */
  function SecondField(s: string): (r: Option<string>)
    ensures r.Some? <==> ' ' in s
    ensures r.Some? ==> ' ' !in r.value
  {
    match IndexOf(s, ' ')
    case None => None
    case Some(i) =>
      var rest := s[i + 1..];
      match IndexOf(rest, ' ')
      case None => Some(rest)
      case Some(j) => Some(rest[..j])
  }

  /** For a word without spaces, both ways the source reads a bearer header agree:
      `split(' ')[1]` and `substring(7)` of `"Bearer " + t` are `t`. */
  lemma BearerFieldAgrees(t: string)
    requires ' ' !in t
    ensures SecondField("Bearer " + t) == Some(t)
    ensures StartsWith("Bearer " + t, "Bearer ") && ("Bearer " + t)[7..] == t
  {
    var s := "Bearer " + t;
    assert s[6] == ' ';
    assert ' ' !in s[..6];
    assert IndexOf(s, ' ') == Some(6);
    assert s[7..] == t;
  }

  /** The decimal digit for `d`. */
  function Digit(d: nat): (c: char)
    requires d < 10
    ensures '0' <= c <= '9'
  {
    ('0' as int + d) as char
  }

  predicate IsDigit(c: char)
  {
    '0' <= c <= '9'
  }

  /** Decimal rendering of a natural number, as `String(n)` and template literals print it. */
  function Show(n: nat): (r: string)
    ensures |r| > 0
    ensures forall i :: 0 <= i < |r| ==> IsDigit(r[i])
  {
    if n < 10 then [Digit(n)] else Show(n / 10) + [Digit(n % 10)]
  }

  /** The value of one decimal digit. */
  function DigitValue(c: char): (d: nat)
    requires IsDigit(c)
    ensures d < 10
  {
    c as int - '0' as int
  }

  /** The number a string of decimal digits denotes. */
  function DigitsValue(s: string): nat
    requires forall i :: 0 <= i < |s| ==> IsDigit(s[i])
  {
    if |s| == 0 then 0
    else DigitsValue(s[..|s| - 1]) * 10 + DigitValue(s[|s| - 1])
  }

  /** A non-empty string of decimal digits read as an id (the integer cast of a path or header
      value); anything else is not an id. */
  function ParseId(s: string): (r: Option<nat>)
    ensures r.Some? <==> |s| > 0 && forall i :: 0 <= i < |s| ==> IsDigit(s[i])
  {
    if |s| > 0 && forall i :: 0 <= i < |s| ==> IsDigit(s[i]) then Some(DigitsValue(s)) else None
  }

  /** Reading back a rendered number gives the number. */
  lemma {:induction false} ParseShow(n: nat)
    ensures ParseId(Show(n)) == Some(n)
  {
    if n < 10 {
      assert Show(n) == [Digit(n)];
      assert Show(n)[..0] == [];
      assert DigitValue(Digit(n)) == n;
      assert DigitsValue(Show(n)) == DigitsValue([]) * 10 + DigitValue(Digit(n));
    } else {
      ParseShow(n / 10);
      var s := Show(n);
      assert s[..|s| - 1] == Show(n / 10);
      assert s[|s| - 1] == Digit(n % 10);
      assert DigitValue(Digit(n % 10)) == n % 10;
    }
  }

  /** Different numbers render differently. */
  lemma ShowInjective(m: nat, n: nat)
    requires Show(m) == Show(n)
    ensures m == n
  {
    ParseShow(m);
    ParseShow(n);
  }
}
