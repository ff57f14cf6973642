/** Release versions: strict parsing and ordering (internal/update/manifest.go:167-199). */
module Semver {
  import opened Wrappers

  const LIMIT: int := 0x8000_0000_0000_0000

  /** semanticVersion: three numbers. */
  type Version = v: seq<nat> | |v| == 3 witness [0, 0, 0]

  /** The order a release must climb. */
  predicate Less(a: Version, b: Version) {
    exists i :: 0 <= i < 3 && a[i] < b[i] && forall j :: 0 <= j < i ==> a[j] == b[j]
  }

  method CompareVersion(left: Version, right: Version) returns (r: int)
    ensures r < 0 <==>
              left[0] < right[0] || (left[0] == right[0] && left[1] < right[1])
              || (left[0] == right[0] && left[1] == right[1] && left[2] < right[2])
    ensures r > 0 <==>
              left[0] > right[0] || (left[0] == right[0] && left[1] > right[1])
              || (left[0] == right[0] && left[1] == right[1] && left[2] > right[2])
    ensures r == 0 <==> left == right
    ensures r < 0 <==> Less(left, right)
    ensures r > 0 <==> Less(right, left)
  {
    LessMeans(left, right);
    LessMeans(right, left);
    for index := 0 to 3
      invariant forall j :: 0 <= j < index ==> left[j] == right[j]
    {
      if left[index] < right[index] {
        return -1;
      }
      if left[index] > right[index] {
        return 1;
      }
    }
    assert left == right;
    return 0;
  }

  /** The first part that differs decides. */
  lemma LessMeans(a: Version, b: Version)
    ensures Less(a, b) <==>
            a[0] < b[0] || (a[0] == b[0] && a[1] < b[1]) || (a[0] == b[0] && a[1] == b[1] && a[2] < b[2])
  {
    if a[0] < b[0] {
      assert Less(a, b) by { var i := 0; assert a[i] < b[i]; }
    } else if a[0] == b[0] && a[1] < b[1] {
      assert Less(a, b) by { var i := 1; assert a[i] < b[i]; }
    } else if a[0] == b[0] && a[1] == b[1] && a[2] < b[2] {
      assert Less(a, b) by { var i := 2; assert a[i] < b[i]; }
    }
  }

  lemma LessIsStrictOrder(a: Version, b: Version, c: Version)
    ensures !Less(a, a)
    ensures Less(a, b) && Less(b, c) ==> Less(a, c)
    ensures Less(a, b) || a == b || Less(b, a)
    ensures !(Less(a, b) && Less(b, a))
  {
    if Less(a, b) && Less(b, c) {
      var i :| 0 <= i < 3 && a[i] < b[i] && forall j :: 0 <= j < i ==> a[j] == b[j];
      var k :| 0 <= k < 3 && b[k] < c[k] && forall j :: 0 <= j < k ==> b[j] == c[j];
      var m := if i < k then i else k;
      assert a[m] < c[m] && forall j :: 0 <= j < m ==> a[j] == c[j];
    }
    if a[0] == b[0] && a[1] == b[1] && a[2] == b[2] {
      assert a == b;
    }
  }

  // ---------- decimal numbers ----------

  predicate IsDigit(c: char) {
    '0' <= c <= '9'
  }

  ghost predicate AllDigits(s: string) {
    forall i :: 0 <= i < |s| ==> IsDigit(s[i])
  }

  function Digit(d: nat): char
    requires d < 10
  {
    "0123456789"[d]
  }

  /** The decimal spelling of n. */
  function Digits(n: nat): (s: string)
    ensures s != [] && AllDigits(s)
    ensures |s| > 1 ==> s[0] != '0'
    ensures s[0] == '0' ==> n == 0
  {
    if n < 10 then [Digit(n)] else Digits(n / 10) + [Digit(n % 10)]
  }

  function Value(s: string): nat
    requires AllDigits(s)
    decreases |s|
  {
    if s == [] then 0 else 10 * Value(s[..|s| - 1]) + (s[|s| - 1] as nat - '0' as nat)
  }

  function Pow10(n: nat): nat {
    if n == 0 then 1 else 10 * Pow10(n - 1)
  }

  /** Decimal place values: a digit is worth itself, and what stands left of n digits its 10^n-fold. */
  lemma {:induction false} ValueMeans(a: string, b: string)
    requires AllDigits(a) && AllDigits(b)
    ensures AllDigits(a + b) && Value(a + b) == Value(a) * Pow10(|b|) + Value(b)
    ensures |b| == 1 ==> Value(b) == b[0] as nat - '0' as nat
    decreases |b|
  {
    if b == [] {
      assert a + b == a && Value("") == 0;
    } else {
      var front, d := b[..|b| - 1], b[|b| - 1] as nat - '0' as nat;
      ValueMeans(a, front);
      ValueNext(a + front, b[|b| - 1]);
      ValueNext(front, b[|b| - 1]);
      assert a + b == a + front + [b[|b| - 1]] && b == front + [b[|b| - 1]];
      hide Value;
      TimesTen(Value(a), |front|);
      assert |front| == 0 ==> front == "";
      NoDigits();
    }
  }

  lemma NoDigits()
    ensures Value("") == 0
  {
  }

  lemma ValueNext(front: string, c: char)
    requires AllDigits(front) && IsDigit(c)
    ensures AllDigits(front + [c]) && Value(front + [c]) == 10 * Value(front) + (c as nat - '0' as nat)
  {
    assert (front + [c])[..|front|] == front;
  }

  lemma TimesTen(x: nat, n: nat)
    ensures x * Pow10(n + 1) == 10 * (x * Pow10(n))
  {
  }

  /** One part of a version: no empty part, no leading zero, digits only, below 2^63. */
  function ParsePart(part: string): Option<nat> {
    if part == "" || (|part| > 1 && part[0] == '0') then None
    else if !(forall i :: 0 <= i < |part| ==> IsDigit(part[i])) then None
    else if Value(part) >= LIMIT then None
    else Some(Value(part))
  }

  lemma {:induction false} ValueOfDigits(n: nat)
    ensures Value(Digits(n)) == n
  {
    var s := Digits(n);
    if n >= 10 {
      ValueOfDigits(n / 10);
      assert s[..|s| - 1] == Digits(n / 10);
    } else {
      assert s[..0] == [];
    }
  }

  lemma {:induction false} DigitsOfValue(s: string)
    requires s != [] && AllDigits(s) && (|s| > 1 ==> s[0] != '0')
    ensures Digits(Value(s)) == s
    decreases |s|
  {
    hide Digits;
    var front, last := s[..|s| - 1], s[|s| - 1];
    var d := last as nat - '0' as nat;
    assert s == front + [last] && IsDigit(last);
    DigitOf(last);
    assert Value(s) == 10 * Value(front) + d;
    if |s| == 1 {
      assert front == [] && Value(front) == 0;
      OneDigit(d);
    } else {
      PositiveValue(front);
      DigitsOfValue(front);
      DigitsStep(Value(front), d);
    }
  }

  lemma OneDigit(d: nat)
    requires d < 10
    ensures Digits(d) == [Digit(d)]
  {
  }

  lemma DigitOf(c: char)
    requires IsDigit(c)
    ensures Digit(c as nat - '0' as nat) == c
  {
  }

  lemma DigitsStep(high: nat, d: nat)
    requires high > 0 && d < 10
    ensures Digits(10 * high + d) == Digits(high) + [Digit(d)]
  {
    assert (10 * high + d) / 10 == high && (10 * high + d) % 10 == d;
  }

  lemma {:induction false} PositiveValue(s: string)
    requires s != [] && AllDigits(s) && s[0] != '0'
    ensures Value(s) > 0
    decreases |s|
  {
    if |s| > 1 {
      PositiveValue(s[..|s| - 1]);
    }
  }

  // ---------- the parser ----------

  function TrimV(s: string): string {
    if s != "" && s[0] == 'v' then s[1..] else s
  }

  /** strings.Split on a dot. */
  function Split(s: string): (parts: seq<string>)
    ensures parts != []
  {
    if s == "" then [""]
    else
      var rest := Split(s[1..]);
      if s[0] == '.' then [""] + rest else [[s[0]] + rest[0]] + rest[1..]
  }

  function Join(parts: seq<string>): string
    requires parts != []
  {
    if |parts| == 1 then parts[0] else parts[0] + "." + Join(parts[1..])
  }

  ghost predicate Dotless(s: string) {
    forall i :: 0 <= i < |s| ==> s[i] != '.'
  }

  function ParseSemver(value: string): Option<Version> {
    var parts := Split(TrimV(value));
    if |parts| != 3 then None
    else
      match (ParsePart(parts[0]), ParsePart(parts[1]), ParsePart(parts[2]))
      case (Some(a), Some(b), Some(c)) => Some([a, b, c])
      case _ => None
  }

  /** The loop of parseSemver over its parts. */
  method ParseParts(value: string) returns (r: Option<Version>)
    ensures r == ParseSemver(value)
  {
    var parts := Split(TrimV(value));
    if |parts| != 3 {
      return None;
    }
    var out := [0, 0, 0];
    for index := 0 to 3
      invariant |out| == 3
      invariant forall j :: 0 <= j < index ==> ParsePart(parts[j]) == Some(out[j])
    {
      var number := ParsePart(parts[index]);
      if number.None? {
        return None;
      }
      out := out[index := number.value];
    }
    assert out == [out[0], out[1], out[2]];
    return Some(out);
  }

  function Format(v: Version): string {
    Digits(v[0]) + "." + Digits(v[1]) + "." + Digits(v[2])
  }

  lemma {:induction false} SplitJoin(s: string)
    ensures Join(Split(s)) == s
  {
    if s != "" {
      SplitJoin(s[1..]);
      var rest := Split(s[1..]);
      assert s == [s[0]] + s[1..];
      if s[0] == '.' {
        assert Split(s)[1..] == rest;
      } else if |rest| > 1 {
        assert Split(s)[1..] == rest[1..];
      }
    }
  }

  lemma {:induction false} SplitPrefix(front: string, rest: string)
    requires Dotless(front)
    ensures Split(front + rest) == [front + Split(rest)[0]] + Split(rest)[1..]
  {
    if front == "" {
      assert front + rest == rest && front + Split(rest)[0] == Split(rest)[0];
      assert Split(rest) == [Split(rest)[0]] + Split(rest)[1..];
    } else {
      assert (front + rest)[1..] == front[1..] + rest;
      SplitPrefix(front[1..], rest);
      assert [front[0]] + (front[1..] + Split(rest)[0]) == front + Split(rest)[0];
    }
  }

  lemma SplitThree(a: string, b: string, c: string)
    requires Dotless(a) && Dotless(b) && Dotless(c)
    ensures Split(a + "." + b + "." + c) == [a, b, c]
  {
    hide Split, Dotless;
    SplitPrefix(c, "");
    SplitNothing();
    assert c + "" == c;
    assert Split(c) == [c];
    SplitField(b, c);
    assert Split(b + ("." + c)) == [b, c];
    SplitField(a, b + ("." + c));
    assert a + "." + b + "." + c == a + ("." + (b + ("." + c)));
  }

  lemma SplitNothing()
    ensures Split("") == [""]
  {
  }

  lemma SplitField(front: string, rest: string)
    requires Dotless(front)
    ensures Split(front + ("." + rest)) == [front] + Split(rest)
  {
    SplitPrefix(front, "." + rest);
    SplitDot(rest);
    hide Split;
    assert front + "" == front && ([""] + Split(rest))[1..] == Split(rest);
  }

  lemma SplitDot(rest: string)
    ensures Split("." + rest) == [""] + Split(rest)
  {
    assert ("." + rest)[1..] == rest;
  }

  /** Parsing accepts exactly the canonical spelling of a version below 2^63, with an optional leading v. */
  lemma ParsesExactlyCanonical(value: string, v: Version)
    ensures ParseSemver(value) == Some(v) <==>
            && v[0] < 9223372036854775808 && v[1] < 9223372036854775808 && v[2] < 9223372036854775808
            && (value == Digits(v[0]) + "." + Digits(v[1]) + "." + Digits(v[2])
                || value == "v" + Digits(v[0]) + "." + Digits(v[1]) + "." + Digits(v[2]))
  {
    hide ParseSemver;
    FormatMeans(v);
    hide Format;
    TrimmedIsFormat(value, v);
    if TrimV(value) == Format(v) && v[0] < LIMIT && v[1] < LIMIT && v[2] < LIMIT {
      CanonicalParses(value, v);
    }
    if ParseSemver(value) == Some(v) {
      ParsedIsCanonical(value, v);
    }
  }

  lemma FormatMeans(v: Version)
    ensures Format(v) == Digits(v[0]) + "." + Digits(v[1]) + "." + Digits(v[2])
    ensures "v" + Format(v) == "v" + Digits(v[0]) + "." + Digits(v[1]) + "." + Digits(v[2])
  {
    hide Digits;
    assert "v" + Format(v) == "v" + Digits(v[0]) + "." + Digits(v[1]) + "." + Digits(v[2]);
  }

  /** A formatted version begins with a digit, so at most one v is cut. */
  lemma TrimmedIsFormat(value: string, v: Version)
    ensures TrimV(value) == Format(v) <==> value == Format(v) || value == "v" + Format(v)
  {
    var first := Digits(v[0]);
    assert Format(v) == first + ("." + Digits(v[1]) + "." + Digits(v[2]));
    assert Format(v)[0] == first[0] && IsDigit(first[0]);
    assert value != "" && value[0] == 'v' ==> value == "v" + value[1..];
    hide Digits, Format;
  }

  lemma CanonicalParses(value: string, v: Version)
    requires TrimV(value) == Format(v) && v[0] < LIMIT && v[1] < LIMIT && v[2] < LIMIT
    ensures ParseSemver(value) == Some(v)
  {
    hide ParsePart, Digits, Split;
    PartOfDigits(v[0]);
    PartOfDigits(v[1]);
    PartOfDigits(v[2]);
    SplitThree(Digits(v[0]), Digits(v[1]), Digits(v[2]));
    assert v == [v[0], v[1], v[2]];
  }

  lemma ParsedIsCanonical(value: string, v: Version)
    requires ParseSemver(value) == Some(v)
    ensures v[0] < LIMIT && v[1] < LIMIT && v[2] < LIMIT && TrimV(value) == Format(v)
  {
    hide ParsePart, Digits, Split, Join;
    var parts := Split(TrimV(value));
    SplitJoin(TrimV(value));
    DigitsOfPart(parts[0]);
    DigitsOfPart(parts[1]);
    DigitsOfPart(parts[2]);
    JoinThree(parts);
    assert parts[0] + "." + (parts[1] + "." + parts[2]) == parts[0] + "." + parts[1] + "." + parts[2];
  }

  lemma JoinThree(parts: seq<string>)
    requires |parts| == 3
    ensures Join(parts) == parts[0] + "." + (parts[1] + "." + parts[2])
  {
    assert parts[1..] == [parts[1], parts[2]] && [parts[1], parts[2]][1..] == [parts[2]];
    assert Join([parts[2]]) == parts[2] && Join([parts[1], parts[2]]) == parts[1] + "." + parts[2];
  }

  lemma PartOfDigits(n: nat)
    requires n < LIMIT
    ensures ParsePart(Digits(n)) == Some(n) && Dotless(Digits(n))
  {
    ValueOfDigits(n);
  }

  lemma DigitsOfPart(part: string)
    requires ParsePart(part).Some?
    ensures Digits(ParsePart(part).value) == part && ParsePart(part).value < LIMIT
  {
    DigitsOfValue(part);
  }
}
