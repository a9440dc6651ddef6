/** The text operations of the Go standard library that the models use: splitting, joining, trimming and decimal
    numbers. */
module Strings {
  import opened Wrappers

  // ---------------------------------------------------------------- split and join

  /** `strings.Split` with a one character separator: always at least one part. */
  function Split(s: string, sep: char): (parts: seq<string>)
    ensures |parts| >= 1
  {
    if s == "" then [""]
    else
      var rest := Split(s[1..], sep);
      if s[0] == sep then [""] + rest else [[s[0]] + rest[0]] + rest[1..]
  }

  function Join(parts: seq<string>, sep: char): string {
    if parts == [] then ""
    else if |parts| == 1 then parts[0]
    else parts[0] + [sep] + Join(parts[1..], sep)
  }

  lemma {:induction false} JoinSplit(s: string, sep: char)
    ensures Join(Split(s, sep), sep) == s
  {
    if s != "" {
      JoinSplit(s[1..], sep);
      var rest := Split(s[1..], sep);
      assert s == [s[0]] + s[1..];
      if s[0] == sep {
        assert ([""] + rest)[1..] == rest;
      } else {
        var parts := [[s[0]] + rest[0]] + rest[1..];
        assert parts[1..] == rest[1..];
      }
    }
  }

  lemma {:induction false} SplitPartsHaveNoSep(s: string, sep: char)
    ensures forall i :: 0 <= i < |Split(s, sep)| ==> sep !in Split(s, sep)[i]
  {
    if s != "" { SplitPartsHaveNoSep(s[1..], sep); }
  }

  lemma {:induction false} SplitWithoutSep(s: string, sep: char)
    requires sep !in s
    ensures Split(s, sep) == [s]
  {
    if s != "" {
      SplitWithoutSep(s[1..], sep);
      assert s == [s[0]] + s[1..];
    }
  }

  lemma {:induction false} SplitAtSep(a: string, b: string, sep: char)
    requires sep !in a
    ensures Split(a + [sep] + b, sep) == [a] + Split(b, sep)
  {
    if a == "" {
      assert a + [sep] + b == [sep] + b;
      assert ([sep] + b)[1..] == b;
    } else {
      SplitAtSep(a[1..], b, sep);
      var s := a + [sep] + b;
      assert s[1..] == a[1..] + [sep] + b;
      assert a == [a[0]] + a[1..];
    }
  }

  lemma {:induction false} SplitJoin(parts: seq<string>, sep: char)
    requires parts != []
    requires forall i :: 0 <= i < |parts| ==> sep !in parts[i]
    ensures Split(Join(parts, sep), sep) == parts
  {
    if |parts| == 1 {
      SplitWithoutSep(parts[0], sep);
    } else {
      SplitJoin(parts[1..], sep);
      SplitAtSep(parts[0], Join(parts[1..], sep), sep);
    }
  }

  // ---------------------------------------------------------------- trimming

  /** Unicode white space, as in `unicode.IsSpace`. */
  predicate IsSpace(c: char) {
    c == ' ' || '\t' <= c <= '\r' || c == '\U{85}' || c == '\U{A0}' || c == '\U{1680}' ||
    '\U{2000}' <= c <= '\U{200A}' || c == '\U{2028}' || c == '\U{2029}' || c == '\U{202F}' || c == '\U{205F}' ||
    c == '\U{3000}'
  }

  function TrimLeft(s: string): string {
    if s != "" && IsSpace(s[0]) then TrimLeft(s[1..]) else s
  }

  function TrimRight(s: string): string {
    if s != "" && IsSpace(s[|s| - 1]) then TrimRight(s[..|s| - 1]) else s
  }

  /** `strings.TrimSpace`. */
  function TrimSpace(s: string): string { TrimRight(TrimLeft(s)) }

  predicate Trimmed(s: string) {
    s == "" || (!IsSpace(s[0]) && !IsSpace(s[|s| - 1]))
  }

  lemma {:induction false} TrimLeftTrims(s: string)
    ensures TrimLeft(s) == "" || !IsSpace(TrimLeft(s)[0])
    ensures forall c <- TrimLeft(s) :: c in s
  {
    if s != "" && IsSpace(s[0]) { TrimLeftTrims(s[1..]); }
  }

  lemma {:induction false} TrimRightTrims(s: string)
    ensures TrimRight(s) == "" || !IsSpace(TrimRight(s)[|TrimRight(s)| - 1])
    ensures TrimRight(s) <= s
  {
    if s != "" && IsSpace(s[|s| - 1]) { TrimRightTrims(s[..|s| - 1]); }
  }

  /** Trimming removes the white space at both ends, and only that. */
  lemma TrimSpaceTrims(s: string)
    ensures Trimmed(TrimSpace(s))
    ensures Trimmed(s) ==> TrimSpace(s) == s
    ensures forall c <- TrimSpace(s) :: c in s
  {
    TrimLeftTrims(s);
    TrimRightTrims(TrimLeft(s));
  }

  // ---------------------------------------------------------------- decimal numbers

  predicate IsDigit(c: char) { '0' <= c <= '9' }

  function Digits(n: nat): (s: string)
    ensures s != "" && forall c <- s :: IsDigit(c)
  {
    var last := [(n % 10) as char + '0'];
    if n < 10 then last else Digits(n / 10) + last
  }

  function DigitsValue(s: string): nat
    requires forall c <- s :: IsDigit(c)
  {
    if s == "" then 0
    else
      assert s[|s| - 1] in s && IsDigit(s[|s| - 1]);
      10 * DigitsValue(s[..|s| - 1]) + (s[|s| - 1] as nat - '0' as nat)
  }

  lemma {:induction false} DigitsRoundTrip(n: nat)
    ensures DigitsValue(Digits(n)) == n
  {
    var s := Digits(n);
    if n < 10 {
      assert s[..|s| - 1] == "";
    } else {
      DigitsRoundTrip(n / 10);
      assert s[..|s| - 1] == Digits(n / 10);
    }
  }

  const MIN_INT64 := -0x8000_0000_0000_0000
  const MAX_INT64 := 0x7fff_ffff_ffff_ffff

  function Decimal(n: int): string {
    if n < 0 then "-" + Digits(-n) else Digits(n)
  }

  /** `strconv.Atoi` on a 64 bit platform: an optional sign, at least one digit, and a value that fits. */
  function Atoi(s: string): Option<int> {
    var signed := s != "" && (s[0] == '-' || s[0] == '+');
    var digits := if signed then s[1..] else s;
    if digits == "" || exists c <- digits :: !IsDigit(c) then None
    else
      var magnitude: int := DigitsValue(digits);
      var n := if signed && s[0] == '-' then -magnitude else magnitude;
      if MIN_INT64 <= n <= MAX_INT64 then Some(n) else None
  }

  lemma AtoiOfDigits(s: string)
    requires s != "" && forall c <- s :: IsDigit(c)
    ensures DigitsValue(s) <= MAX_INT64 ==> Atoi(s) == Some(DigitsValue(s))
    ensures DigitsValue(s) <= -MIN_INT64 ==> Atoi("-" + s) == Some(0 - DigitsValue(s))
  {
    assert s[0] in s;
    assert ("-" + s)[1..] == s;
  }

  /** The text is digits after at most one sign, and stands for the number. */
  predicate Denotes(s: string, sign: string, digits: string, n: int) {
    && sign in {"", "-", "+"} && digits != "" && (forall c <- digits :: IsDigit(c)) && s == sign + digits
    && n == if sign == "-" then 0 - DigitsValue(digits) else DigitsValue(digits)
  }

  /** What `Atoi` accepts: digits, after at most one sign, whose value fits. */
  lemma AtoiIff(s: string, n: int)
    ensures Atoi(s) == Some(n) <==>
      MIN_INT64 <= n <= MAX_INT64 && exists sign, digits :: Denotes(s, sign, digits, n)
  {
    if Atoi(s) == Some(n) {
      var signed := s[0] == '-' || s[0] == '+';
      var sign, digits := if signed then [s[0]] else "", if signed then s[1..] else s;
      assert Denotes(s, sign, digits, n);
    }
    if MIN_INT64 <= n <= MAX_INT64 && exists sign, digits :: Denotes(s, sign, digits, n) {
      var sign, digits :| Denotes(s, sign, digits, n);
      assert digits[0] in digits;
      if sign == "" { assert s == digits; } else { assert s[0] == sign[0] && s[1..] == digits; }
    }
  }

  lemma AtoiDecimal(n: int)
    requires MIN_INT64 <= n <= MAX_INT64
    ensures Atoi(Decimal(n)) == Some(n)
  {
    var magnitude: nat := if n < 0 then -n else n;
    DigitsRoundTrip(magnitude);
    AtoiOfDigits(Digits(magnitude));
  }

  /** A number in decimal notation of any size. */
  function ParseDecimal(s: string): Option<int> {
    if s != "" && forall c <- s :: IsDigit(c) then Some(DigitsValue(s))
    else if |s| > 1 && s[0] == '-' && forall c <- s[1..] :: IsDigit(c) then Some(0 - DigitsValue(s[1..]))
    else None
  }

  lemma ParseDecimalOfDecimal(n: int)
    ensures ParseDecimal(Decimal(n)) == Some(n)
  {
    var magnitude: nat := if n < 0 then -n else n;
    DigitsRoundTrip(magnitude);
    if n < 0 {
      var s := Decimal(n);
      assert s[1..] == Digits(magnitude) && s[0] == '-';
      assert s[0] in s && !IsDigit(s[0]);
    }
  }

  lemma DecimalIsPlain(n: int)
    ensures Decimal(n) != "" && Trimmed(Decimal(n)) && '.' !in Decimal(n)
  {
    var s := Decimal(n);
    forall i | 0 <= i < |s| ensures IsDigit(s[i]) || s[i] == '-' {
      if n >= 0 { assert s[i] in Digits(n); } else if i > 0 { assert s[i] in Digits(-n); }
    }
  }
}
