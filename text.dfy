/** The string operations the loader uses: Python's `str.strip`,
    `str.endswith`, splitting on one delimiter character and formatting a
    natural number in decimal. */
module Text {
  import opened Seqs

  /** Python's whitespace characters (`str.isspace`), which `str.strip()`
      removes from both ends. */
  predicate IsSpace(c: char) {
    c == ' ' || ('\t' <= c <= '\r') || ('\U{1C}' <= c <= '\U{1F}')
    || c == '\U{85}' || c == '\U{A0}' || c == '\U{1680}'
    || ('\U{2000}' <= c <= '\U{200A}') || c == '\U{2028}' || c == '\U{2029}'
    || c == '\U{202F}' || c == '\U{205F}' || c == '\U{3000}'
  }

  /** `s` with its leading whitespace removed (`str.lstrip()`). */
  function TrimStart(s: string): (r: string)
    ensures |r| <= |s| && r == s[|s| - |r|..]
    ensures forall i :: 0 <= i < |s| - |r| ==> IsSpace(s[i])
    ensures r == [] || !IsSpace(r[0])
    ensures (forall i :: 0 <= i < |s| ==> IsSpace(s[i])) ==> r == []
  {
    if s != [] && IsSpace(s[0]) then TrimStart(s[1..]) else s
  }

  /** `s` with its trailing whitespace removed (`str.rstrip()`). */
  function TrimEnd(s: string): (r: string)
    ensures |r| <= |s| && r == s[..|r|]
    ensures forall i :: |r| <= i < |s| ==> IsSpace(s[i])
    ensures r == [] || !IsSpace(r[|r| - 1])
  {
    if s != [] && IsSpace(s[|s| - 1]) then TrimEnd(s[..|s| - 1]) else s
  }

  /** `str.strip()` with no argument. */
  function Strip(s: string): (r: string)
    ensures |r| <= |s|
    ensures r == [] || (!IsSpace(r[0]) && !IsSpace(r[|r| - 1]))
  {
    TrimEnd(TrimStart(s))
  }

  /** A line strips to nothing exactly when every character is whitespace. */
  lemma StripEmptyIffBlank(s: string)
    ensures |Strip(s)| == 0 <==> forall i :: 0 <= i < |s| ==> IsSpace(s[i])
  {
    var t := TrimStart(s);
    if |Strip(s)| == 0 {
      assert |t| == 0;
    }
  }

  /** Python's `s.endswith(suffix)`. */
  function EndsWith(s: string, suffix: string): (r: bool)
    ensures r ==> |suffix| <= |s| && s == s[..|s| - |suffix|] + suffix
  {
    |suffix| <= |s| && s[|s| - |suffix|..] == suffix
  }

  /** Whatever precedes it, a string ends with its own suffix. */
  lemma EndsWithAppended(stem: string, suffix: string)
    ensures EndsWith(stem + suffix, suffix)
  {
    assert (stem + suffix)[|stem|..] == suffix;
  }

  /** The pieces of `s` between occurrences of `d` (Python's `s.split(d)`
      for a one-character separator): one more piece than there are
      separators, none of which contains `d`. */
  function Split(s: string, d: char): (r: seq<string>)
    ensures |r| == Occurrences(s, d) + 1
    ensures forall k :: 0 <= k < |r| ==> d !in r[k]
  {
    if s == [] then [""]
    else
      var rest := Split(s[1..], d);
      if s[0] == d then [""] + rest
      else [[s[0]] + rest[0]] + rest[1..]
  }

  /** A string without `d` splits into itself alone. */
  lemma {:induction false} SplitNoDelim(s: string, d: char)
    requires d !in s
    ensures Split(s, d) == [s]
    decreases |s|
  {
    if s != [] {
      SplitNoDelim(s[1..], d);
      assert s == [s[0]] + s[1..];
    }
  }

  /** A string with a single `d` splits into the parts on either side of it. */
  lemma {:induction false} SplitAtOnly(a: string, b: string, d: char)
    requires d !in a && d !in b
    ensures Split(a + [d] + b, d) == [a, b]
    decreases |a|
  {
    var s := a + [d] + b;
    if a == [] {
      assert s[1..] == b;
      SplitNoDelim(b, d);
    } else {
      assert s[1..] == a[1..] + [d] + b;
      SplitAtOnly(a[1..], b, d);
      assert a == [a[0]] + a[1..];
    }
  }

  /** The pieces glued back together with `d` between them (`d.join(pieces)`). */
  function Join(pieces: seq<string>, d: char): string
    requires |pieces| > 0
  {
    if |pieces| == 1 then pieces[0]
    else pieces[0] + [d] + Join(pieces[1..], d)
  }

  /** Joining the pieces of a split gives back the original string. */
  lemma {:induction false} SplitJoin(s: string, d: char)
    ensures Join(Split(s, d), d) == s
    decreases |s|
  {
    if s != [] {
      var rest := Split(s[1..], d);
      SplitJoin(s[1..], d);
      if s[0] != d {
        var r := Split(s, d);
        assert r[1..] == rest[1..];
        if |rest| > 1 {
          assert Join(rest, d) == rest[0] + [d] + Join(rest[1..], d);
        }
      }
    }
  }

  /** The character for the digit `k` (0 to 9). */
  function DigitChar(k: nat): (c: char)
    requires k < 10
  {
    (48 + k) as char
  }

  predicate IsDigit(c: char) {
    '0' <= c <= '9'
  }

  /** `n` in decimal, without leading zeros (Python's `str(n)` and
      `'{}'.format(n)`). */
  function Decimal(n: nat): (r: string)
    ensures |r| >= 1
    ensures forall i :: 0 <= i < |r| ==> IsDigit(r[i])
    ensures n > 0 ==> r[0] != '0'
  {
    if n < 10 then [DigitChar(n)] else Decimal(n / 10) + [DigitChar(n % 10)]
  }

  /** The number a string of decimal digits denotes. */
  function DecimalValue(s: string): nat
    requires forall i :: 0 <= i < |s| ==> IsDigit(s[i])
  {
    if s == [] then 0
    else
      var last := s[|s| - 1];
      assert IsDigit(last);
      DecimalValue(s[..|s| - 1]) * 10 + (last as int - 48)
  }

  /** Reading back the decimal form of `n` gives `n`. */
  lemma {:induction false} DecimalRoundTrip(n: nat)
    ensures DecimalValue(Decimal(n)) == n
    decreases n
  {
    if n >= 10 {
      DecimalRoundTrip(n / 10);
      var r := Decimal(n);
      assert r[..|r| - 1] == Decimal(n / 10);
    }
  }
}
