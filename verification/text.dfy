/** Character-sequence helpers shared by the request parser and the response
    builder: the searches the server performs with std::search and
    std::string::find_first_of, and the decimal rendering an ostream gives
    to an unsigned integer. */
module Text {

  datatype Option<+T> = None | Some(value: T)

  /** The line delimiter of the wire protocol. */
  const CRLF: string := "\r\n"

  /** A CRLF pair starts at index k of s. */
  predicate CrlfAt(s: string, k: int)
  {
    0 <= k && k + 1 < |s| && s[k] == '\r' && s[k + 1] == '\n'
  }

  /** s contains no CRLF pair. */
  predicate NoCrlf(s: string)
  {
    forall k :: 0 <= k < |s| ==> !CrlfAt(s, k)
  }

  /** The first CRLF at or after `from`, or |s| when there is none
      (std::search for "\r\n", with |s| standing for the end iterator). */
  function FindCrlf(s: string, from: nat): (r: nat)
    requires from <= |s|
    ensures from <= r <= |s|
    ensures r < |s| ==> CrlfAt(s, r)
    ensures forall k :: from <= k < r ==> !CrlfAt(s, k)
    decreases |s| - from
  {
    if from == |s| then |s|
    else if CrlfAt(s, from) then from
    else FindCrlf(s, from + 1)
  }

  /** A line free of CRLF followed by CRLF: the CRLF search from its start
      stops right after it, and the line is what the scan slices out. */
  lemma LineThenCrlf(data: string, pos: nat, line: string, rest: string)
    requires pos <= |data| && data[pos..] == line + CRLF + rest
    requires NoCrlf(line)
    ensures FindCrlf(data, pos) == pos + |line|
    ensures data[pos..pos + |line|] == line
    ensures data[pos + |line| + 2..] == rest
  {
    var s := data[pos..];
    assert forall k :: 0 <= k < |line| ==> s[k] == line[k];
    assert s[|line|] == '\r' && s[|line| + 1] == '\n';
    forall k | pos <= k < pos + |line|
      ensures !CrlfAt(data, k)
    {
      assert data[k] == s[k - pos];
      if k + 1 < pos + |line| {
        assert data[k + 1] == line[k + 1 - pos];
        assert !CrlfAt(line, k - pos);
      } else {
        assert data[k + 1] == '\r';
      }
    }
    assert CrlfAt(data, pos + |line|);
    assert data[pos..pos + |line|] == s[..|line|];
    assert data[pos + |line| + 2..] == s[|line| + 2..];
  }

  /** The first occurrence of c at or after `from`, or |s| when there is none
      (std::search for a one-character needle, or find_first_of with npos
      read as |s|). */
  function FindChar(s: string, c: char, from: nat): (r: nat)
    requires from <= |s|
    ensures from <= r <= |s|
    ensures r < |s| ==> s[r] == c
    ensures forall k :: from <= k < r ==> s[k] != c
    decreases |s| - from
  {
    if from == |s| then |s|
    else if s[from] == c then from
    else FindChar(s, c, from + 1)
  }

  lemma {:induction false} FindCharAbsent(s: string, c: char)
    ensures FindChar(s, c, 0) == |s| <==> c !in s
  {
    if c in s {
      var k :| 0 <= k < |s| && s[k] == c;
      assert FindChar(s, c, 0) <= k;
    }
  }

  /** A sequence is its part before index k, the element at k and its part
      after k. */
  lemma SplitAround(s: string, k: nat)
    requires k < |s|
    ensures s == s[..k] + [s[k]] + s[k + 1..]
  {
  }

  // ---------------------------------------------------------------- decimal

  predicate IsDigit(c: char)
  {
    '0' <= c <= '9'
  }

  predicate AllDigits(s: string)
  {
    forall k :: 0 <= k < |s| ==> IsDigit(s[k])
  }

  function DigitChar(d: nat): (c: char)
    requires d < 10
    ensures IsDigit(c)
  {
    (48 + d) as char
  }

  function DigitValue(c: char): nat
    requires IsDigit(c)
  {
    c as int - 48
  }

  /** The text `os << n` produces for an unsigned integer n: base ten, no sign,
      no leading zeros. */
  function Decimal(n: nat): (r: string)
    ensures |r| > 0 && AllDigits(r)
    ensures |r| > 1 ==> r[0] != '0'
    decreases n
  {
    if n < 10 then [DigitChar(n)] else Decimal(n / 10) + [DigitChar(n % 10)]
  }

  /** The number a string of decimal digits denotes. */
  function DigitsValue(s: string): nat
    requires AllDigits(s)
  {
    if s == [] then 0 else DigitsValue(s[..|s| - 1]) * 10 + DigitValue(s[|s| - 1])
  }

  /** Reading back the digits `os << n` wrote gives n. */
  lemma {:induction false} DecimalRoundTrip(n: nat)
    ensures DigitsValue(Decimal(n)) == n
  {
    if n >= 10 {
      DecimalRoundTrip(n / 10);
      var s := Decimal(n);
      assert s[..|s| - 1] == Decimal(n / 10);
    }
  }

  /** The end of the run of digits that starts at `from`. */
  function DigitRun(s: string, from: nat): (r: nat)
    requires from <= |s|
    ensures from <= r <= |s|
    ensures r < |s| ==> !IsDigit(s[r])
    ensures forall k :: from <= k < r ==> IsDigit(s[k])
    decreases |s| - from
  {
    if from == |s| || !IsDigit(s[from]) then from else DigitRun(s, from + 1)
  }

  /** A digit run that is followed by a non-digit ends exactly there. */
  lemma DigitRunOfPrefix(d: string, rest: string)
    requires AllDigits(d)
    requires rest != [] && !IsDigit(rest[0])
    ensures DigitRun(d + rest, 0) == |d|
  {
    var s := d + rest;
    assert forall k :: 0 <= k < |d| ==> s[k] == d[k];
    assert s[|d|] == rest[0];
  }
}
