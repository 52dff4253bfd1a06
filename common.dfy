/**
 * Building blocks shared by the back end and the front end: optional values and
 * results, JavaScript truthiness of optional strings, ASCII character classes,
 * `trim`, lower-casing, substring search, element sets and JavaScript `parseInt`.
 *
 * Text handling is ASCII only: JavaScript's `trim`, `toLowerCase`, the regular
 * expression class `\s` and SQL ILIKE also act on non-ASCII characters, which
 * this module does not model.
 */
module Common {

  datatype Option<T> = None | Some(value: T)

  datatype Result<T, E> = Success(value: T) | Failure(error: E)

  // ---------------------------------------------------------------------------
  // JavaScript truthiness of an optional string: `undefined`, `null` and `''`
  // are falsy, every other string is truthy.

  predicate Truthy(s: Option<string>) {
    s.Some? && s.value != ""
  }

  /** `s || null`: a falsy string becomes null. */
  function OrNull(s: Option<string>): Option<string> {
    if Truthy(s) then s else None
  }

  // ---------------------------------------------------------------------------
  // ASCII character classes and case mapping.

  /** The ASCII members of JavaScript's white-space class `\s`. */
  predicate IsSpace(c: char) {
    c == ' ' || c == '\t' || c == '\n' || c == '\r' || c == '\U{B}' || c == '\U{C}'
  }

  predicate IsUpper(c: char) { 'A' <= c <= 'Z' }

  predicate IsLower(c: char) { 'a' <= c <= 'z' }

  function ToLower(c: char): char {
    if IsUpper(c) then (c as int + 32) as char else c
  }

  function ToUpper(c: char): char {
    if IsLower(c) then (c as int - 32) as char else c
  }

  /** `s.toLowerCase()` on ASCII text. */
  function Lower(s: string): (r: string)
    ensures |r| == |s|
    ensures forall i :: 0 <= i < |s| ==> r[i] == ToLower(s[i])
  {
    seq(|s|, i requires 0 <= i < |s| => ToLower(s[i]))
  }

  // ---------------------------------------------------------------------------
  // `trim`

  /** Drops leading white space: the result is a suffix of `s`, everything
      dropped is white space, and the result does not start with white space. */
  function TrimStart(s: string): (r: string)
    ensures |r| <= |s| && r == s[|s| - |r|..]
    ensures forall i :: 0 <= i < |s| - |r| ==> IsSpace(s[i])
    ensures r == [] || !IsSpace(r[0])
  {
    if s != [] && IsSpace(s[0]) then TrimStart(s[1..]) else s
  }

  /** Drops trailing white space: the result is a prefix of `s`, everything
      dropped is white space, and the result does not end with white space. */
  function TrimEnd(s: string): (r: string)
    ensures |r| <= |s| && r == s[..|r|]
    ensures forall i :: |r| <= i < |s| ==> IsSpace(s[i])
    ensures r == [] || !IsSpace(r[|r| - 1])
  {
    if s != [] && IsSpace(s[|s| - 1]) then TrimEnd(s[..|s| - 1]) else s
  }

  /** `s.trim()`. */
  function Trim(s: string): string {
    TrimEnd(TrimStart(s))
  }

  /** `s.trim() === ''`. */
  predicate IsBlank(s: string) {
    Trim(s) == ""
  }

  /** A string is blank after trimming exactly when it consists of white space. */
  lemma {:induction false} BlankIffAllSpace(s: string)
    ensures IsBlank(s) <==> forall i :: 0 <= i < |s| ==> IsSpace(s[i])
  {
    var t := TrimStart(s);
    assert t != [] ==> t[0] == s[|s| - |t|];
    if IsBlank(s) {
      assert TrimEnd(t) == [];
      forall i | 0 <= i < |s| ensures IsSpace(s[i]) {
      }
    }
  }

  // ---------------------------------------------------------------------------
  // Substrings (SQL `LIKE '%t%'`, case-insensitive as ILIKE).

  predicate OccursAt(s: string, t: string, i: int) {
    0 <= i && i + |t| <= |s| && s[i..i + |t|] == t
  }

  predicate Contains(s: string, t: string) {
    exists i | 0 <= i <= |s| :: OccursAt(s, t, i)
  }

  /** `s ILIKE '%t%'` on ASCII text, with the characters of `t` taken literally. */
  predicate ContainsIgnoreCase(s: string, t: string) {
    Contains(Lower(s), Lower(t))
  }

  // ---------------------------------------------------------------------------
  // Element sets and duplicates (`new Set(xs).size < xs.length`).

  predicate Distinct<T(==)>(s: seq<T>) {
    forall i, j :: 0 <= i < j < |s| ==> s[i] != s[j]
  }

  function ElemSet<T(==)>(s: seq<T>): set<T> {
    set x | x in s
  }

  /** The set of a sequence's elements is never larger than the sequence, and it
      is exactly as large when no element repeats. */
  lemma {:induction false} ElemSetSize<T>(s: seq<T>)
    ensures |ElemSet(s)| <= |s|
    ensures |ElemSet(s)| == |s| <==> Distinct(s)
  {
    if s != [] {
      var t := s[1..];
      ElemSetSize(t);
      assert ElemSet(s) == {s[0]} + ElemSet(t);
      if s[0] in t {
        assert ElemSet(s) == ElemSet(t);
        var k :| 0 <= k < |t| && t[k] == s[0];
        assert s[0] == s[k + 1];
      } else {
        assert s[0] !in ElemSet(t);
        assert |ElemSet(s)| == |ElemSet(t)| + 1;
        if Distinct(t) {
          forall i, j | 0 <= i < j < |s| ensures s[i] != s[j] {
            if i > 0 {
              assert s[i] == t[i - 1] && s[j] == t[j - 1];
            } else {
              assert s[j] == t[j - 1];
            }
          }
        } else {
          var i, j :| 0 <= i < j < |t| && t[i] == t[j];
          assert s[i + 1] == s[j + 1];
        }
      }
    }
  }

  // ---------------------------------------------------------------------------
  // Filtering a sequence (`xs.filter(p)`, SQL `WHERE`).

  /** The elements of `s` that satisfy `p`, in their original order. */
  function Filter<T>(s: seq<T>, p: T -> bool): (r: seq<T>)
    ensures |r| <= |s|
    ensures forall i :: 0 <= i < |r| ==> r[i] in s && p(r[i])
    ensures forall i :: 0 <= i < |s| && p(s[i]) ==> s[i] in r
  {
    if s == [] then []
    else
      var rest := Filter(s[1..], p);
      if p(s[0]) then [s[0]] + rest else rest
  }

  /** Every element `Filter` keeps has each property all elements of `s` have. */
  lemma {:induction false} FilterKeeps<T>(s: seq<T>, p: T -> bool, q: T -> bool)
    requires forall i :: 0 <= i < |s| ==> q(s[i])
    ensures forall i :: 0 <= i < |Filter(s, p)| ==> q(Filter(s, p)[i])
  {
    if s != [] {
      FilterKeeps(s[1..], p, q);
    }
  }

  /** Two conditions that never hold together select at most as many elements
      as there are; when every element satisfies one of them, exactly as many. */
  lemma {:induction false} FilterDisjointCounts<T>(s: seq<T>, p: T -> bool, q: T -> bool)
    requires forall i :: 0 <= i < |s| ==> !(p(s[i]) && q(s[i]))
    ensures |Filter(s, p)| + |Filter(s, q)| <= |s|
    ensures (forall i :: 0 <= i < |s| ==> p(s[i]) || q(s[i])) <==> |Filter(s, p)| + |Filter(s, q)| == |s|
  {
    if s != [] {
      FilterDisjointCounts(s[1..], p, q);
      if !(p(s[0]) || q(s[0])) {
        assert |Filter(s, p)| + |Filter(s, q)| < |s|;
      }
    }
  }

  /** Filtering a concatenation filters each part and keeps the parts in
      order; with `Filter([x], p)` being `[x]` or `[]`, this fixes the order of
      the kept elements. */
  lemma {:induction false} FilterAppend<T>(a: seq<T>, b: seq<T>, p: T -> bool)
    ensures Filter(a + b, p) == Filter(a, p) + Filter(b, p)
    ensures forall x :: Filter([x], p) == if p(x) then [x] else []
  {
    if a == [] {
      assert a + b == b;
    } else {
      assert (a + b)[0] == a[0] && (a + b)[1..] == a[1..] + b;
      FilterAppend(a[1..], b, p);
    }
  }

  /** Every element that satisfies `p` is kept as often as it occurs, and no
      other element is kept. */
  lemma {:induction false} FilterMultiplicity<T>(s: seq<T>, p: T -> bool, x: T)
    ensures multiset(Filter(s, p))[x] == if p(x) then multiset(s)[x] else 0
  {
    if s != [] {
      var rest := Filter(s[1..], p);
      FilterMultiplicity(s[1..], p, x);
      assert multiset(s) == multiset{s[0]} + multiset(s[1..]) by {
        assert s == [s[0]] + s[1..];
      }
      if p(s[0]) {
        assert Filter(s, p) == [s[0]] + rest;
        assert multiset(Filter(s, p)) == multiset{s[0]} + multiset(rest);
      } else {
        assert Filter(s, p) == rest;
      }
    }
  }

  /** The positions of `s` whose element satisfies `p`. */
  function IndicesWhere<T>(s: seq<T>, p: T -> bool): set<int> {
    set i | 0 <= i < |s| && p(s[i])
  }

  /** `Filter` keeps one element per position that satisfies `p`. */
  lemma {:induction false} FilterSize<T>(s: seq<T>, p: T -> bool)
    ensures |Filter(s, p)| == |IndicesWhere(s, p)|
  {
    if s != [] {
      var init, last := s[..|s| - 1], s[|s| - 1];
      FilterSize(init, p);
      assert init + [last] == s;
      FilterAppend(init, [last], p);
      IndicesSnoc(s, init, p);
    }
  }

  /** The positions of `s` are those of all but its last element, and the last
      one when it satisfies `p`. */
  lemma IndicesSnoc<T>(s: seq<T>, init: seq<T>, p: T -> bool)
    requires s != [] && init == s[..|s| - 1]
    ensures |IndicesWhere(s, p)| == |IndicesWhere(init, p)| + if p(s[|s| - 1]) then 1 else 0
  {
    var before := IndicesWhere(init, p);
    var n := |s| - 1;
    var extra: set<int> := if p(s[n]) then {n} else {};
    forall i ensures i in IndicesWhere(s, p) <==> i in before + extra {
      if 0 <= i < n {
        assert s[i] == init[i];
      }
    }
    assert IndicesWhere(s, p) == before + extra;
    assert n !in before;
  }

  // ---------------------------------------------------------------------------
  // JavaScript `parseInt` and `Number.prototype.toString` on integers.

  /** `parseInt(s)` (no radix: a `0x`/`0X` prefix selects base 16) or
      `parseInt(s, 10)`. */
  datatype Radix = AutoRadix | Decimal

  /** A JavaScript number as `parseInt` can produce it. */
  datatype Number = NaN | Num(n: int)

  /** The value of an alphanumeric digit in bases up to 36; 36 for anything else. */
  function DigitValue(c: char): nat {
    if '0' <= c <= '9' then c as int - '0' as int
    else if 'a' <= c <= 'z' then c as int - 'a' as int + 10
    else if 'A' <= c <= 'Z' then c as int - 'A' as int + 10
    else 36
  }

  /** Length of the longest prefix of `s` made of digits of the given base. */
  function DigitRun(s: string, base: nat): (n: nat)
    ensures n <= |s|
    ensures forall i :: 0 <= i < n ==> DigitValue(s[i]) < base
    ensures n == |s| || DigitValue(s[n]) >= base
  {
    if s != [] && DigitValue(s[0]) < base then 1 + DigitRun(s[1..], base) else 0
  }

  /** Positional value of a digit string, most significant digit first. */
  function DigitsValue(ds: string, base: nat): nat {
    if ds == [] then 0
    else DigitsValue(ds[..|ds| - 1], base) * base + DigitValue(ds[|ds| - 1])
  }

  /** The number spelled by the digits at the start of `body`, NaN if there are none. */
  function LeadingDigits(body: string, base: nat): Number {
    var k := DigitRun(body, base);
    if k == 0 then NaN else Num(DigitsValue(body[..k], base))
  }

  /** An unsigned `parseInt` operand: with no radix, `0x`/`0X` selects base 16. */
  function ParseMagnitude(u: string, radix: Radix): Number {
    if radix == AutoRadix && |u| >= 2 && u[0] == '0' && (u[1] == 'x' || u[1] == 'X')
    then LeadingDigits(u[2..], 16)
    else LeadingDigits(u, 10)
  }

  function Negate(x: Number): Number {
    if x.NaN? then NaN else Num(-x.n)
  }

  /** `parseInt(s)` / `parseInt(s, 10)`: leading white space is skipped, one
      sign is accepted, and the longest run of digits is read; trailing text is
      ignored. */
  function ParseInt(s: string, radix: Radix): Number {
    var t := TrimStart(s);
    if t != [] && t[0] == '-' then Negate(ParseMagnitude(t[1..], radix))
    else if t != [] && t[0] == '+' then ParseMagnitude(t[1..], radix)
    else ParseMagnitude(t, radix)
  }

  /** `parseInt(x)` where `x` may be `undefined` (which reads as the text "undefined"). */
  function ParseOptionalInt(s: Option<string>, radix: Radix): Number {
    if s.None? then NaN else ParseInt(s.value, radix)
  }

  function DecimalDigit(d: nat): char
    requires d < 10
  {
    ('0' as int + d) as char
  }

  function NatToString(n: nat): (s: string)
    ensures |s| >= 1
    ensures forall i :: 0 <= i < |s| ==> '0' <= s[i] <= '9'
  {
    if n < 10 then [DecimalDigit(n)] else NatToString(n / 10) + [DecimalDigit(n % 10)]
  }

  /** `n.toString()` for an integer `n`. */
  function IntToString(n: int): string {
    if n < 0 then "-" + NatToString(-n) else NatToString(n)
  }

  lemma {:induction false} NatToStringValue(n: nat)
    ensures DigitsValue(NatToString(n), 10) == n
    ensures DigitRun(NatToString(n), 10) == |NatToString(n)|
  {
    var s := NatToString(n);
    if n >= 10 {
      NatToStringValue(n / 10);
      assert s[..|s| - 1] == NatToString(n / 10);
    }
  }

  lemma MagnitudeOfNatToString(m: nat, radix: Radix)
    ensures ParseMagnitude(NatToString(m), radix) == Num(m)
  {
    var digits := NatToString(m);
    NatToStringValue(m);
    assert digits[..|digits|] == digits;
    assert LeadingDigits(digits, 10) == Num(m);
    assert |digits| >= 2 ==> digits[1] != 'x' && digits[1] != 'X';
  }

  /** `parseInt('')` is NaN. */
  lemma ParseIntOfEmpty(s: string, radix: Radix)
    requires |s| == 0
    ensures ParseInt(s, radix) == NaN
  {
    assert TrimStart(s) == s;
  }

  /** `parseInt('0')` is 0. */
  lemma ParseIntOfZero(s: string, radix: Radix)
    requires |s| == 1 && s[0] == '0'
    ensures ParseInt(s, radix) == Num(0)
  {
    assert s == NatToString(0) == IntToString(0);
    ParseIntOfIntToString(0, radix);
  }

  /** Parsing the decimal text of an integer gives the integer back, with or
      without an explicit radix. */
  lemma {:induction false} ParseIntOfIntToString(n: int, radix: Radix)
    ensures ParseInt(IntToString(n), radix) == Num(n)
  {
    if n < 0 {
      ParseIntOfNegativeText(IntToString(n), -n, radix);
    } else {
      ParseIntOfNatText(IntToString(n), n, radix);
    }
  }

  lemma ParseIntOfNatText(s: string, m: nat, radix: Radix)
    requires s == NatToString(m)
    ensures ParseInt(s, radix) == Num(m)
  {
    MagnitudeOfNatToString(m, radix);
    assert '0' <= s[0] <= '9';
    TrimStartOfNonSpace(s);
  }

  lemma ParseIntOfNegativeText(s: string, m: nat, radix: Radix)
    requires s == "-" + NatToString(m)
    ensures ParseInt(s, radix) == Num(-(m as int))
  {
    MagnitudeOfNatToString(m, radix);
    TrimStartOfNonSpace(s);
    assert s[0] == '-' && s[1..] == NatToString(m);
  }

  lemma TrimStartOfNonSpace(s: string)
    requires s != [] && !IsSpace(s[0])
    ensures TrimStart(s) == s
  {
  }
}
