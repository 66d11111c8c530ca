/** Splitting, decimal numbers and trimming. */
module Text {
  import opened Wrappers

  // ---------- strings.Split with a one-character separator ----------

  function Split(s: string, sep: char): (parts: seq<string>)
    ensures |parts| >= 1
  {
    if s == "" then [""]
    else
      var rest := Split(s[1..], sep);
      if s[0] == sep then [""] + rest else [[s[0]] + rest[0]] + rest[1..]
  }

  lemma {:induction false} SplitPart(a: string, b: string, sep: char)
    requires sep !in a
    ensures Split(a + [sep] + b, sep) == [a] + Split(b, sep)
    decreases |a|
  {
    var s := a + [sep] + b;
    if a == "" {
      assert s[1..] == b;
    } else {
      assert s[1..] == a[1..] + [sep] + b;
      SplitPart(a[1..], b, sep);
      assert [a[0]] + a[1..] == a;
    }
  }

  lemma {:induction false} SplitNone(a: string, sep: char)
    requires sep !in a
    ensures Split(a, sep) == [a]
    decreases |a|
  {
    if a != "" {
      SplitNone(a[1..], sep);
      assert [a[0]] + a[1..] == a;
    }
  }

  function Join(parts: seq<string>, sep: char): string {
    if parts == [] then "" else if |parts| == 1 then parts[0] else parts[0] + [sep] + Join(parts[1..], sep)
  }

  lemma {:induction false} SplitJoin(parts: seq<string>, sep: char)
    requires parts != [] && forall part :: part in parts ==> sep !in part
    ensures Split(Join(parts, sep), sep) == parts
    decreases |parts|
  {
    if |parts| == 1 {
      SplitNone(parts[0], sep);
    } else {
      SplitJoin(parts[1..], sep);
      assert parts[0] in parts;
      SplitPart(parts[0], Join(parts[1..], sep), sep);
    }
  }

  /** Splitting loses nothing but the separators. */
  lemma {:induction false} JoinSplit(s: string, sep: char)
    ensures Join(Split(s, sep), sep) == s && forall part :: part in Split(s, sep) ==> sep !in part
    decreases |s|
  {
    if s != "" {
      JoinSplit(s[1..], sep);
      assert s == [s[0]] + s[1..];
      var rest := Split(s[1..], sep);
      if s[0] != sep {
        assert rest[0] in rest;
        assert forall part :: part in rest[1..] ==> part in rest;
        JoinFirst(s[0], rest, sep);
      } else {
        assert ([""] + rest)[1..] == rest;
      }
    }
  }

  lemma JoinFirst(c: char, rest: seq<string>, sep: char)
    requires rest != []
    ensures Join([[c] + rest[0]] + rest[1..], sep) == [c] + Join(rest, sep)
  {
    var parts := [[c] + rest[0]] + rest[1..];
    assert parts[1..] == rest[1..];
    if |rest| > 1 { assert [c] + rest[0] + [sep] + Join(rest[1..], sep) == [c] + (rest[0] + [sep] + Join(rest[1..], sep)); }
  }

  // ---------- Decimal numbers ----------

  predicate IsDigit(c: char) {
    '0' <= c <= '9'
  }

  function Digits(n: nat): string {
    if n < 10 then ['0' + n as char] else Digits(n / 10) + ['0' + (n % 10) as char]
  }

  /** strconv.Itoa. */
  function Decimal(n: int): string {
    if n < 0 then "-" + Digits(-n) else Digits(n)
  }

  function DigitsValue(s: string): int {
    if s == "" then 0 else DigitsValue(s[..|s| - 1]) * 10 + s[|s| - 1] as int - '0' as int
  }

  lemma {:induction false} DigitsRoundTrip(n: nat)
    ensures Digits(n) != "" && (forall c :: c in Digits(n) ==> IsDigit(c)) && DigitsValue(Digits(n)) == n
    ensures |Digits(n)| == 1 || Digits(n)[0] != '0'
    decreases n
  {
    var last := '0' + (n % 10) as char;
    if n >= 10 {
      DigitsRoundTrip(n / 10);
      assert Digits(n)[..|Digits(n)| - 1] == Digits(n / 10);
      if |Digits(n / 10)| == 1 { assert n / 10 < 10; }
    } else {
      assert Digits(n)[..0] == "";
    }
  }

  /** The longest prefix of digits. */
  function TakeDigits(s: string): (string, string) {
    if s == "" || !IsDigit(s[0]) then ("", s)
    else
      var (digits, rest) := TakeDigits(s[1..]);
      ([s[0]] + digits, rest)
  }

  lemma {:induction false} TakeDigitsPrefix(a: string, b: string)
    requires forall c :: c in a ==> IsDigit(c)
    requires b == "" || !IsDigit(b[0])
    ensures TakeDigits(a + b) == (a, b)
    decreases |a|
  {
    if a == "" {
      assert a + b == b;
    } else {
      assert (a + b)[1..] == a[1..] + b;
      TakeDigitsPrefix(a[1..], b);
      assert [a[0]] + a[1..] == a;
    }
  }

  /** A number at the start of s that fits into lo..hi, and the text after it. */
  function ScanNumber(s: string, signed: bool, lo: int, hi: int): Option<(int, string)> {
    var negative := signed && s != "" && s[0] == '-';
    var (digits, rest) := TakeDigits(if negative then s[1..] else s);
    if digits == "" then None
    else
      var n := if negative then 0 - DigitsValue(digits) else DigitsValue(digits);
      if lo <= n <= hi then Some((n, rest)) else None
  }

  lemma ScanDigits(n: nat, rest: string)
    requires rest == "" || !IsDigit(rest[0])
    ensures TakeDigits(Digits(n) + rest) == (Digits(n), rest) && DigitsValue(Digits(n)) == n
    ensures Digits(n) != "" && IsDigit(Digits(n)[0])
  {
    DigitsRoundTrip(n);
    TakeDigitsPrefix(Digits(n), rest);
  }

  lemma ScanSigned(s: string, signed: bool, lo: int, hi: int, digits: string, rest: string)
    requires s != "" && (s[0] == '-' ==> signed) && digits != ""
    requires TakeDigits(if s[0] == '-' then s[1..] else s) == (digits, rest)
    ensures var n := if s[0] == '-' then 0 - DigitsValue(digits) else DigitsValue(digits);
      lo <= n <= hi ==> ScanNumber(s, signed, lo, hi) == Some((n, rest))
  {
  }

  lemma DecimalText(n: int, digits: string, rest: string)
    requires digits == Digits(if n < 0 then -n else n) && digits != "" && digits[0] != '-'
    ensures var s := Decimal(n) + rest; s != "" && (s[0] == '-' <==> n < 0) && (if n < 0 then s[1..] else s) == digits + rest
  {
  }

  lemma ScanDecimal(n: int, rest: string, signed: bool, lo: int, hi: int)
    requires lo <= n <= hi && (n >= 0 || signed)
    requires rest == "" || !IsDigit(rest[0])
    ensures ScanNumber(Decimal(n) + rest, signed, lo, hi) == Some((n, rest))
  {
    var m := if n < 0 then -n else n;
    ScanDigits(m, rest);
    DecimalText(n, Digits(m), rest);
    ScanSigned(Decimal(n) + rest, signed, lo, hi, Digits(m), rest);
  }

  // ---------- Literals ----------

  /** s after the literal, if it starts with it. */
  function After(s: string, literal: string): Option<string> {
    if literal <= s then Some(s[|literal|..]) else None
  }

  lemma AfterLiteral(literal: string, rest: string)
    ensures After(literal + rest, literal) == Some(rest)
  {
  }

  // ---------- strings.TrimSpace ----------

  predicate IsSpace(c: char) {
    || '\t' <= c <= '\r' || c == ' ' || c == '\U{85}' || c == '\U{A0}' || c == '\U{1680}' || '\U{2000}' <= c <= '\U{200A}'
    || c == '\U{2028}' || c == '\U{2029}' || c == '\U{202F}' || c == '\U{205F}' || c == '\U{3000}'
  }

  function TrimLeft(s: string): string {
    if s != "" && IsSpace(s[0]) then TrimLeft(s[1..]) else s
  }

  function TrimRight(s: string): string {
    if s != "" && IsSpace(s[|s| - 1]) then TrimRight(s[..|s| - 1]) else s
  }

  function Trim(s: string): string {
    TrimRight(TrimLeft(s))
  }

  predicate Trimmed(s: string) {
    s == "" || (!IsSpace(s[0]) && !IsSpace(s[|s| - 1]))
  }

  predicate AllSpace(s: string) {
    forall i :: 0 <= i < |s| ==> IsSpace(s[i])
  }

  lemma {:induction false} TrimLeftResult(s: string) returns (left: string)
    ensures var r := TrimLeft(s); s == left + r && AllSpace(left) && (r == "" || !IsSpace(r[0]))
    decreases |s|
  {
    left := "";
    if s != "" && IsSpace(s[0]) {
      var rest := TrimLeftResult(s[1..]);
      left := [s[0]] + rest;
      assert s == [s[0]] + s[1..];
    }
  }

  lemma {:induction false} TrimRightResult(s: string) returns (right: string)
    ensures var r := TrimRight(s); s == r + right && AllSpace(right) && (r == "" || !IsSpace(r[|r| - 1]))
    decreases |s|
  {
    right := "";
    if s != "" && IsSpace(s[|s| - 1]) {
      var front, last := s[..|s| - 1], s[|s| - 1];
      var rest := TrimRightResult(front);
      right := rest + [last];
      LastBack(s, front, last, TrimRight(front), rest);
    }
  }

  lemma LastBack(s: string, front: string, last: char, kept: string, rest: string)
    requires s == front + [last] && front == kept + rest
    ensures s == kept + (rest + [last])
  {
  }

  /** The text between its surrounding spaces. */
  ghost predicate Between(s: string, left: string, middle: string, right: string) {
    s == left + middle + right && AllSpace(left) && AllSpace(right)
  }

  /** Trimming takes nothing but spaces, leaves none at either end, and changes nothing the second time. */
  lemma TrimResult(s: string)
    ensures exists left, right :: Between(s, left, Trim(s), right)
    ensures Trimmed(Trim(s)) && (Trimmed(s) ==> Trim(s) == s)
  {
    var left := TrimLeftResult(s);
    var right := TrimRightResult(TrimLeft(s));
    assert s == left + Trim(s) + right;
    assert Between(s, left, Trim(s), right);
    if Trim(s) != "" { assert TrimLeft(s)[0] == Trim(s)[0]; }
  }

  /** The spaces around a text go, and the text stays. */
  lemma TrimBetween(left: string, middle: string, right: string)
    requires AllSpace(left) && AllSpace(right) && Trimmed(middle)
    ensures Trim(left + middle + right) == middle
  {
    assert left + middle + right == left + (middle + right);
    TrimLeftOf(left, middle + right);
    if middle == "" {
      AllTrimmed(right);
    } else {
      FirstStays(middle, right);
      TrimRightOf(middle, right);
    }
  }

  lemma FirstStays(middle: string, right: string)
    requires middle != "" && Trimmed(middle)
    ensures TrimLeft(middle + right) == middle + right && TrimRight(middle) == middle
  {
    assert (middle + right)[0] == middle[0];
  }

  lemma AllTrimmed(right: string)
    requires AllSpace(right)
    ensures Trim("" + right) == ""
  {
    assert right + "" == right && "" + right == right;
    TrimLeftOf(right, "");
  }

  lemma {:induction false} TrimLeftOf(left: string, rest: string)
    requires AllSpace(left)
    ensures TrimLeft(left + rest) == TrimLeft(rest)
    decreases |left|
  {
    if left == "" {
      assert left + rest == rest;
    } else {
      TrimLeftOf(left[1..], rest);
      assert (left + rest)[1..] == left[1..] + rest;
    }
  }

  lemma {:induction false} TrimRightOf(rest: string, right: string)
    requires AllSpace(right)
    ensures TrimRight(rest + right) == TrimRight(rest)
    decreases |right|
  {
    if right == "" {
      assert rest + right == rest;
    } else {
      var front := right[..|right| - 1];
      TrimRightOf(rest, front);
      assert (rest + right)[..|rest + right| - 1] == rest + front;
    }
  }

  lemma TrimTwice(s: string)
    ensures Trim(Trim(s)) == Trim(s)
  {
    TrimResult(s);
    TrimResult(Trim(s));
  }

  // ---------- ASCII letter case ----------

  function LowerChar(c: char): char {
    if 'A' <= c <= 'Z' then 'a' + (c - 'A') else c
  }

  function UpperChar(c: char): char {
    if 'a' <= c <= 'z' then 'A' + (c - 'a') else c
  }

  function Lower(s: string): (r: string)
    ensures |r| == |s| && forall i :: 0 <= i < |s| ==> r[i] == LowerChar(s[i])
  {
    if s == "" then "" else [LowerChar(s[0])] + Lower(s[1..])
  }
}
