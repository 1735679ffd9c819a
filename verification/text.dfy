/** Text helpers the garage relies on: whitespace stripping as done by
    Python's `str.strip()` and the zero-padded sequential identifiers
    `V001`, `S001`, ... produced by the format `{n:03d}`. */
module Text {
  import opened Results

  /** The characters Python's `str.isspace()` accepts, by code point. */
  predicate IsSpace(c: char) {
    var n := c as int;
    (9 <= n <= 13) || (28 <= n <= 32) || n == 0x85 || n == 0xA0 || n == 0x1680
    || (0x2000 <= n <= 0x200A) || n == 0x2028 || n == 0x2029 || n == 0x202F
    || n == 0x205F || n == 0x3000
  }

  predicate AllSpace(s: string) {
    forall i :: 0 <= i < |s| ==> IsSpace(s[i])
  }

  /** `s` with its leading whitespace removed. */
  function TrimStart(s: string): string {
    if s != [] && IsSpace(s[0]) then TrimStart(s[1..]) else s
  }

  /** `s` with its trailing whitespace removed. */
  function TrimEnd(s: string): string {
    if s != [] && IsSpace(s[|s| - 1]) then TrimEnd(s[..|s| - 1]) else s
  }

  /** TrimStart drops a whitespace prefix and keeps the rest, which starts
      with a non-whitespace character if it is not empty. */
  lemma {:induction false} TrimStartFacts(s: string)
    ensures |TrimStart(s)| <= |s| && TrimStart(s) == s[|s| - |TrimStart(s)|..]
    ensures AllSpace(s[..|s| - |TrimStart(s)|])
    ensures TrimStart(s) != [] ==> !IsSpace(TrimStart(s)[0])
  {
    if s != [] && IsSpace(s[0]) {
      TrimStartFacts(s[1..]);
      var k := |s| - |TrimStart(s)|;
      assert s[..k] == [s[0]] + s[1..][..k - 1];
    }
  }

  /** TrimEnd drops a whitespace suffix and keeps the rest, which ends with
      a non-whitespace character if it is not empty. */
  lemma {:induction false} TrimEndFacts(s: string)
    ensures |TrimEnd(s)| <= |s| && TrimEnd(s) == s[..|TrimEnd(s)|]
    ensures AllSpace(s[|TrimEnd(s)|..])
    ensures TrimEnd(s) != [] ==> !IsSpace(TrimEnd(s)[|TrimEnd(s)| - 1])
  {
    if s != [] && IsSpace(s[|s| - 1]) {
      TrimEndFacts(s[..|s| - 1]);
      assert s[..|s| - 1][|TrimEnd(s)|..] + [s[|s| - 1]] == s[|TrimEnd(s)|..];
    }
  }

  /** Python's `s.strip()`: whitespace removed at both ends. It is empty
      exactly when `s` is all whitespace. */
  function Strip(s: string): (r: string)
    ensures r != [] ==> !IsSpace(r[0]) && !IsSpace(r[|r| - 1])
    ensures r == [] <==> AllSpace(s)
  {
    var t := TrimStart(s);
    TrimStartFacts(s);
    TrimEndFacts(t);
    var r := TrimEnd(t);
    var lo := |s| - |t|;
    if r == [] then
      assert t[|r|..] == t;
      assert t == [];
      assert s[..lo] == s;
      r
    else
      assert r[0] == t[0] == s[lo];
      r
  }

  /** What `Strip` removes is whitespace: the result is a slice of `s` with
      only whitespace before and after it. */
  lemma StripIsSlice(s: string)
    ensures exists lo, hi :: 0 <= lo <= hi <= |s| && Strip(s) == s[lo..hi]
              && AllSpace(s[..lo]) && AllSpace(s[hi..])
  {
    var t := TrimStart(s);
    TrimStartFacts(s);
    TrimEndFacts(t);
    var r := TrimEnd(t);
    var lo := |s| - |t|;
    assert r == s[lo..lo + |r|];
    assert s[lo + |r|..] == t[|r|..];
  }

  predicate IsDigit(c: char) {
    '0' <= c <= '9'
  }

  predicate AllDigits(s: string) {
    forall i :: 0 <= i < |s| ==> IsDigit(s[i])
  }

  function DigitChar(d: nat): (c: char)
    requires d < 10
    ensures IsDigit(c) && c as int - '0' as int == d
  {
    ('0' as int + d) as char
  }

  /** The decimal numeral of `n`, without leading zeros. */
  function Digits(n: nat): (s: string)
    ensures 1 <= |s| && AllDigits(s)
    decreases n
  {
    if n < 10 then [DigitChar(n)] else Digits(n / 10) + [DigitChar(n % 10)]
  }

  /** The number a string of decimal digits denotes (leading zeros allowed). */
  function Value(s: string): nat
    requires AllDigits(s)
  {
    if s == [] then 0 else 10 * Value(s[..|s| - 1]) + (s[|s| - 1] as int - '0' as int)
  }

  lemma {:induction false} ValueOfDigits(n: nat)
    ensures Value(Digits(n)) == n
    decreases n
  {
    if n >= 10 {
      var s := Digits(n);
      assert s[..|s| - 1] == Digits(n / 10);
      ValueOfDigits(n / 10);
    }
  }

  /** A leading zero does not change the number a numeral denotes. */
  lemma {:induction false} ValueOfLeadingZero(s: string)
    requires AllDigits(s)
    ensures AllDigits(['0'] + s) && Value(['0'] + s) == Value(s)
    decreases |s|
  {
    var t := ['0'] + s;
    if s != [] {
      assert t[..|t| - 1] == ['0'] + s[..|s| - 1];
      ValueOfLeadingZero(s[..|s| - 1]);
    }
  }

  /** The numeral of `n` has one digit below 10, two below 100, three below
      1000 and at least three from 100 on. */
  lemma DigitCount(n: nat)
    ensures n < 10 ==> |Digits(n)| == 1
    ensures 10 <= n < 100 ==> |Digits(n)| == 2
    ensures 100 <= n ==> |Digits(n)| >= 3
    ensures 100 <= n < 1000 ==> |Digits(n)| == 3
  {
    if n >= 10 {
      assert |Digits(n)| == |Digits(n / 10)| + 1;
      if n / 10 >= 10 {
        assert |Digits(n / 10)| == |Digits(n / 100)| + 1;
        if n / 100 < 10 {
          assert |Digits(n / 100)| == 1;
        }
      }
    }
  }

  /** Python's `f"{n:03d}"`: the numeral of `n`, left-padded with zeros to
      at least three characters. */
  function Pad3(n: nat): string {
    if n < 10 then "00" + Digits(n)
    else if n < 100 then "0" + Digits(n)
    else Digits(n)
  }

  /** A sequential identifier: `prefix` followed by `Pad3(n)`, e.g. `V001`. */
  function SequentialId(prefix: char, n: nat): (id: string)
    ensures 4 <= |id| && id[0] == prefix
  {
    DigitCount(n);
    [prefix] + Pad3(n)
  }

  /** The prefix and number of a sequential identifier: a character followed
      by at least one decimal digit. */
  function ParseSequentialId(id: string): Option<(char, nat)> {
    if 2 <= |id| && AllDigits(id[1..]) then Some((id[0], Value(id[1..]))) else None
  }

  /** Parsing a sequential identifier gives back its prefix and number; up to
      999 the identifier has exactly four characters. */
  lemma SequentialIdDecodes(prefix: char, n: nat)
    ensures ParseSequentialId(SequentialId(prefix, n)) == Some((prefix, n))
    ensures n < 1000 ==> |SequentialId(prefix, n)| == 4
  {
    Pad3Reads(n);
    assert SequentialId(prefix, n)[1..] == Pad3(n);
  }

  /** The padded numeral has at least three digits and reads back as `n`. */
  lemma Pad3Reads(n: nat)
    ensures 3 <= |Pad3(n)| && AllDigits(Pad3(n)) && Value(Pad3(n)) == n
    ensures n < 1000 ==> |Pad3(n)| == 3
  {
    var d := Digits(n);
    ValueOfDigits(n);
    DigitCount(n);
    if n < 10 {
      ValueOfLeadingZero(d);
      ValueOfLeadingZero(['0'] + d);
      assert Pad3(n) == ['0'] + (['0'] + d);
    } else if n < 100 {
      ValueOfLeadingZero(d);
      assert Pad3(n) == ['0'] + d;
    }
  }

  /** Sequential identifiers with the same prefix and different numbers
      differ. */
  lemma SequentialIdsDiffer(prefix: char, m: nat, n: nat)
    requires m != n
    ensures SequentialId(prefix, m) != SequentialId(prefix, n)
  {
    SequentialIdDecodes(prefix, m);
    SequentialIdDecodes(prefix, n);
  }
}
