/**
 * The JavaScript built-ins the habit builder's logic relies on, written out
 * so that their edge cases are explicit: `String.prototype.split(/\s+/)`,
 * `toLowerCase`, `includes`, `padStart`, integer `toString`, the truncating
 * `%` operator and `Math.round`.
 */
module JsText {
  import opened Model

  /** The characters matched by the regular-expression class `\s`. */
  predicate IsSpace(c: char)
  {
    || c == ' ' || c == '\t' || c == '\n' || c == '\U{000B}' || c == '\U{000C}' || c == '\r'
    || c == '\U{00A0}' || c == '\U{1680}' || ('\U{2000}' <= c <= '\U{200A}')
    || c == '\U{2028}' || c == '\U{2029}' || c == '\U{202F}' || c == '\U{205F}'
    || c == '\U{3000}' || c == '\U{FEFF}'
  }

  /**
   * `s.split(/\s+/)`: every maximal run of white space separates two fields,
   * so a leading or trailing run yields an empty first or last field and the
   * empty string yields one empty field.
   */
  function Fields(s: string): (r: seq<string>)
    ensures |r| >= 1
    ensures forall i, j :: 0 <= i < |r| && 0 <= j < |r[i]| ==> !IsSpace(r[i][j])
    decreases |s|
  {
    if s == [] then [""]
    else if IsSpace(s[0]) then
      if |s| > 1 && IsSpace(s[1]) then Fields(s[1..]) else [""] + Fields(s[1..])
    else
      var f := Fields(s[1..]);
      [[s[0]] + f[0]] + f[1..]
  }

  /** `s.split(/\s+/).length`. */
  function WordCount(s: string): (n: nat)
    ensures n >= 1
  {
    |Fields(s)|
  }

  function Concat(ss: seq<string>): string
  {
    if ss == [] then "" else ss[0] + Concat(ss[1..])
  }

  /** The characters of `s` that are not white space, in order. */
  function Strip(s: string): string
  {
    if s == [] then ""
    else if IsSpace(s[0]) then Strip(s[1..])
    else [s[0]] + Strip(s[1..])
  }

  /** Splitting loses only the white space: the fields, joined, are `s` without it. */
  lemma {:induction false} FieldsRejoin(s: string)
    ensures Concat(Fields(s)) == Strip(s)
    decreases |s|
  {
    if s == [] {
    } else if IsSpace(s[0]) {
      FieldsRejoin(s[1..]);
      if !(|s| > 1 && IsSpace(s[1])) {
        assert Concat([""] + Fields(s[1..])) == "" + Concat(Fields(s[1..]));
      }
    } else {
      var f := Fields(s[1..]);
      FieldsRejoin(s[1..]);
      assert Concat(f) == f[0] + Concat(f[1..]);
      var g := [[s[0]] + f[0]] + f[1..];
      assert g[1..] == f[1..];
      assert Concat(g) == [s[0]] + f[0] + Concat(f[1..]);
    }
  }

  /** Position `i` of `s` is the last character of a run of white space. */
  predicate RunEnd(s: string, i: int)
  {
    0 <= i < |s| && IsSpace(s[i]) && (i + 1 == |s| || !IsSpace(s[i + 1]))
  }

  /** The number of white-space runs that end at position `i` or later. */
  function RunEndsFrom(s: string, i: nat): nat
    requires i <= |s|
    decreases |s| - i
  {
    if i == |s| then 0 else (if RunEnd(s, i) then 1 else 0) + RunEndsFrom(s, i + 1)
  }

  /**
   * The number of fields, which is all `WordCount` uses: one more than the
   * number of maximal runs of white space in the text.
   */
  lemma {:induction false} FieldCount(s: string)
    ensures WordCount(s) == 1 + RunEndsFrom(s, 0)
    decreases |s|
  {
    if s != [] {
      FieldCount(s[1..]);
      RunEndsShift(s, 1);
      assert RunEnd(s, 0) <==> IsSpace(s[0]) && !(|s| > 1 && IsSpace(s[1]));
    }
  }

  /** Dropping the first character shifts the positions of the later run ends by one. */
  lemma {:induction false} RunEndsShift(s: string, i: nat)
    requires 1 <= i <= |s|
    ensures RunEndsFrom(s, i) == RunEndsFrom(s[1..], i - 1)
    decreases |s| - i
  {
    if i < |s| {
      RunEndsShift(s, i + 1);
      assert RunEnd(s, i) == RunEnd(s[1..], i - 1);
    }
  }

  /** One blank appended after the text adds a run unless the text already ends in one. */
  lemma {:induction false} RunEndsAppendBlank(s: string, i: nat)
    requires i <= |s|
    ensures RunEndsFrom(s + " ", i) == RunEndsFrom(s, i) + (if i < |s| && IsSpace(s[|s| - 1]) then 0 else 1)
    decreases |s| - i
  {
    var t := s + " ";
    if i == |s| {
      assert RunEnd(t, i);
    } else if i + 1 == |s| {
      assert !RunEnd(t, i) && RunEnd(t, i + 1);
    } else {
      RunEndsAppendBlank(s, i + 1);
      assert t[i] == s[i] && t[i + 1] == s[i + 1];
      assert RunEnd(t, i) == RunEnd(s, i);
    }
  }

  /**
   * A trailing blank adds an (empty) field unless the text already ends in
   * white space: `"title ".split(/\s+/)` has two fields, one more than `"title"`.
   */
  lemma TrailingBlankCounts(s: string)
    ensures WordCount(s + " ") == WordCount(s) + (if s != [] && IsSpace(s[|s| - 1]) then 0 else 1)
  {
    FieldCount(s);
    FieldCount(s + " ");
    RunEndsAppendBlank(s, 0);
  }

  /** A word followed by one blank splits into the word and an empty field. */
  lemma {:induction false} WordThenBlank(w: string)
    requires w != [] && forall i :: 0 <= i < |w| ==> !IsSpace(w[i])
    ensures Fields(w + " ") == [w, ""]
    decreases |w|
  {
    var s := w + " ";
    assert s[0] == w[0] && s[1..] == w[1..] + " ";
    if |w| == 1 {
      assert s[1..] == " " && " "[1..] == "";
    } else {
      WordThenBlank(w[1..]);
    }
    assert [w[0]] + w[1..] == w;
  }

  /** `toLowerCase` on the ASCII letters; other characters are kept. */
  function LowerChar(c: char): char
  {
    if 'A' <= c <= 'Z' then (c as int + 32) as char else c
  }

  function ToLower(s: string): (r: string)
    ensures |r| == |s|
  {
    seq(|s|, i requires 0 <= i < |s| => LowerChar(s[i]))
  }

  /** Lower-casing works character by character, so it distributes over `+`. */
  lemma ToLowerAppend(a: string, b: string)
    ensures ToLower(a + b) == ToLower(a) + ToLower(b)
  {
  }

  lemma ToLowerIdempotent(s: string)
    ensures ToLower(ToLower(s)) == ToLower(s)
  {
  }

  /** `s.includes(sub)`. */
  function Contains(s: string, sub: string): bool
    decreases |s|
  {
    sub <= s || (s != [] && Contains(s[1..], sub))
  }

  /** `sub` occurs in `s` starting at position `k`. */
  predicate OccursAt(s: string, sub: string, k: int)
  {
    0 <= k <= |s| - |sub| && s[k..k + |sub|] == sub
  }

  /** `includes` holds exactly when `sub` occurs at some position of `s`. */
  lemma {:induction false} ContainsAt(s: string, sub: string)
    ensures Contains(s, sub) <==> exists k :: OccursAt(s, sub, k)
    decreases |s|
  {
    if sub <= s {
      assert OccursAt(s, sub, 0);
    } else if s == [] {
    } else {
      ContainsAt(s[1..], sub);
      if exists k :: OccursAt(s, sub, k) {
        var k :| OccursAt(s, sub, k);
        assert k != 0;
        OccursInTail(s, sub, k - 1);
      }
      if exists k :: OccursAt(s[1..], sub, k) {
        var k :| OccursAt(s[1..], sub, k);
        OccursInTail(s, sub, k);
      }
    }
  }

  /** An occurrence in the tail is one in the whole text, one position later. */
  lemma OccursInTail(s: string, sub: string, k: nat)
    requires s != []
    ensures OccursAt(s[1..], sub, k) <==> OccursAt(s, sub, k + 1)
  {
    if k + 1 <= |s| - |sub| {
      assert s[1..][k..k + |sub|] == s[k + 1..k + 1 + |sub|];
    }
  }

  predicate IsDigit(c: char)
  {
    '0' <= c <= '9'
  }

  function Digit(d: nat): (c: char)
    requires d < 10
    ensures IsDigit(c)
  {
    ('0' as int + d) as char
  }

  predicate AllDigits(s: string)
  {
    forall i :: 0 <= i < |s| ==> IsDigit(s[i])
  }

  /** Decimal digits of `n`, most significant first, without leading zeros. */
  function NatToString(n: nat): (s: string)
    ensures |s| >= 1
    ensures AllDigits(s)
    ensures n >= 10 ==> s[0] != '0'
    ensures n < 10 <==> |s| == 1
    ensures n < 100 ==> |s| <= 2
  {
    if n < 10 then [Digit(n)] else NatToString(n / 10) + [Digit(n % 10)]
  }

  /** Integer `toString`: a minus sign before the digits of a negative number. */
  function IntToString(i: int): string
  {
    if i < 0 then "-" + NatToString(-i) else NatToString(i)
  }

  function DigitValue(c: char): nat
    requires IsDigit(c)
  {
    c as int - '0' as int
  }

  function ParseNat(s: string): nat
    requires AllDigits(s)
  {
    if s == [] then 0 else 10 * ParseNat(s[..|s| - 1]) + DigitValue(s[|s| - 1])
  }

  function ParseInt(s: string): int
    requires s != [] && s[0] == '-' ==> AllDigits(s[1..])
    requires s == [] || s[0] != '-' ==> AllDigits(s)
  {
    if s != [] && s[0] == '-' then 0 - ParseNat(s[1..]) else ParseNat(s)
  }

  lemma {:induction false} NatToStringRoundTrip(n: nat)
    ensures ParseNat(NatToString(n)) == n
    decreases n
  {
    if n >= 10 {
      NatToStringRoundTrip(n / 10);
      var s := NatToString(n);
      assert s[..|s| - 1] == NatToString(n / 10);
    }
  }

  /** The remainder is an odd function of the dividend. */
  lemma JsRemOdd(a: int, b: int)
    requires b > 0
    ensures JsRem(-a, b) == -JsRem(a, b)
  {
  }

  /** Reading back what `toString` wrote gives the number. */
  lemma IntToStringRoundTrip(i: int)
    ensures ParseInt(IntToString(i)) == i
  {
    NatToStringRoundTrip(if i < 0 then -i else i);
    if i < 0 {
      assert IntToString(i)[1..] == NatToString(-i);
    }
  }

  /** `s.padStart(n, c)`. */
  function PadStart(s: string, n: nat, c: char): (r: string)
    ensures |r| == if |s| >= n then |s| else n
    ensures r[|r| - |s|..] == s
    ensures forall i :: 0 <= i < |r| - |s| ==> r[i] == c
  {
    if |s| >= n then s else seq(n - |s|, _ => c) + s
  }

  /** `a % b` for a positive divisor: the remainder takes the sign of `a`. */
  function JsRem(a: int, b: int): (r: int)
    requires b > 0
    ensures a >= 0 ==> 0 <= r < b
    ensures a < 0 ==> -b < r <= 0
    ensures a >= 0 ==> r == a % b
  {
    if a >= 0 then a % b else -((-a) % b)
  }

  /** `Math.round(x)`, in exact arithmetic: the integer nearest `x`, halves rounded up. */
  function Round(x: real): (r: int)
    ensures x - 0.5 < r as real <= x + 0.5
  {
    (x + 0.5).Floor
  }

  /** Rounding keeps order. */
  lemma RoundMonotone(x: real, y: real)
    requires x <= y
    ensures Round(x) <= Round(y)
  {
  }

  /** The parts of `a + [c] + b` on either side of the separator `c`. */
  lemma SplitAround(a: string, c: char, b: string)
    ensures var s := a + [c] + b; |s| == |a| + 1 + |b| && s[..|a|] == a && s[|a|] == c && s[|a| + 1..] == b
  {
    var s := a + [c] + b;
    assert s[..|a|] == a;
    assert s[|a| + 1..] == b;
  }

  /** The position of the first `c` in `s`. */
  function Find(s: string, c: char): (r: Option<nat>)
    ensures r.Some? ==> r.value < |s| && s[r.value] == c && forall i :: 0 <= i < r.value ==> s[i] != c
    ensures r.None? ==> forall i :: 0 <= i < |s| ==> s[i] != c
  {
    if s == [] then None
    else if s[0] == c then Some(0)
    else match Find(s[1..], c)
      case None => None
      case Some(k) => Some(k + 1)
  }
}
