/** The handful of Python string built-ins the purchase ledger relies on:
    `str.isdigit`, `int(...)`, `str(...)` of an integer and `str.split`.
    Only ASCII digits are modelled. */
module Text {

  datatype Option<+T> = None | Some(value: T)

  predicate IsDigit(c: char) {
    '0' <= c <= '9'
  }

  /** `s.isdigit()`: non-empty and made of decimal digits only. */
  predicate IsDigits(s: string) {
    |s| > 0 && forall i :: 0 <= i < |s| ==> IsDigit(s[i])
  }

  function DigitValue(c: char): int {
    c as int - '0' as int
  }

  function DigitChar(d: int): (c: char)
    requires 0 <= d < 10
    ensures IsDigit(c) && DigitValue(c) == d
  {
    ('0' as int + d) as char
  }

  /** The decimal value of a string of digits, most significant digit first. */
  function DigitsValue(s: string): (n: int)
    requires forall i :: 0 <= i < |s| ==> IsDigit(s[i])
    ensures n >= 0
    decreases |s|
  {
    if |s| == 0 then 0
    else
      assert IsDigit(s[|s| - 1]);
      DigitsValue(s[..|s| - 1]) * 10 + DigitValue(s[|s| - 1])
  }

  /** `str(n)` for a natural number: its decimal digits, which read back as `n`. */
  function NatToString(n: nat): (s: string)
    ensures IsDigits(s) && DigitsValue(s) == n
    decreases n
  {
    if n < 10 then [DigitChar(n)]
    else
      var s := NatToString(n / 10) + [DigitChar(n % 10)];
      assert s[..|s| - 1] == NatToString(n / 10);
      s
  }

  /** `int(t)` for a token that holds no whitespace: an optional sign followed
      by at least one digit; anything else raises, modelled as `None`. */
  function ParseInt(t: string): (r: Option<int>)
    ensures IsDigits(t) ==> r == Some(DigitsValue(t))
    ensures r.Some? ==> |t| > 0
  {
    if |t| > 0 && (t[0] == '-' || t[0] == '+') && IsDigits(t[1..]) then
      Some(if t[0] == '-' then -DigitsValue(t[1..]) else DigitsValue(t[1..]))
    else if IsDigits(t) then Some(DigitsValue(t))
    else None
  }

  /** `str(n)` for any integer: a minus sign for negatives, never a space,
      and `int` reads it back. */
  function IntToString(n: int): (s: string)
    ensures ParseInt(s) == Some(n)
    ensures |s| > 0 && forall i :: 0 <= i < |s| ==> s[i] != ' '
    ensures n >= 0 ==> IsDigits(s)
  {
    if n < 0 then
      var s := "-" + NatToString(-n);
      assert s[1..] == NatToString(-n);
      s
    else NatToString(n)
  }

  /** `sep` starts at index `j` of `s`. */
  predicate OccursAt(s: string, sep: string, j: int) {
    0 <= j && j + |sep| <= |s| && s[j..j + |sep|] == sep
  }

  predicate Contains(s: string, sep: string) {
    exists j :: 0 <= j <= |s| && OccursAt(s, sep, j)
  }

  lemma OccursAfterFirst(s: string, sep: string)
    requires |s| > 0
    ensures forall j :: 0 <= j ==> (OccursAt(s[1..], sep, j) <==> OccursAt(s, sep, j + 1))
  {
    forall j | 0 <= j
      ensures OccursAt(s[1..], sep, j) <==> OccursAt(s, sep, j + 1)
    {
      if j + 1 + |sep| <= |s| {
        assert s[1..][j..j + |sep|] == s[j + 1..j + 1 + |sep|];
      }
    }
  }

  /** `s.find(sep)`: the first index where `sep` occurs, or `None`. */
  function Find(s: string, sep: string): (r: Option<nat>)
    requires |sep| > 0
    ensures r.Some? ==> OccursAt(s, sep, r.value)
    ensures r.Some? ==> forall j :: 0 <= j < r.value ==> !OccursAt(s, sep, j)
    ensures r.None? <==> !Contains(s, sep)
    decreases |s|
  {
    if |s| < |sep| then None
    else if s[..|sep|] == sep then Some(0)
    else
      OccursAfterFirst(s, sep);
      match Find(s[1..], sep)
      case None =>
        assert forall j :: OccursAt(s, sep, j) ==> j > 0 && OccursAt(s[1..], sep, j - 1);
        None
      case Some(k) =>
        assert OccursAt(s, sep, k + 1);
        assert forall j :: 0 < j <= k && OccursAt(s, sep, j) ==> OccursAt(s[1..], sep, j - 1);
        Some(k + 1)
  }

  /** `sep.join(pieces)`. */
  function Join(pieces: seq<string>, sep: string): string
    requires |pieces| > 0
  {
    if |pieces| == 1 then pieces[0] else pieces[0] + sep + Join(pieces[1..], sep)
  }

  lemma OccursInPrefix(s: string, n: nat, sep: string, j: int)
    requires n <= |s| && OccursAt(s[..n], sep, j)
    ensures OccursAt(s, sep, j)
  {
    assert s[..n][j..j + |sep|] == s[j..j + |sep|];
  }

  /** `s.split(sep)`: the pieces between the non-overlapping occurrences of
      `sep` found from left to right; joining them gives `s` back. */
  function Split(s: string, sep: string): (r: seq<string>)
    requires |sep| > 0
    ensures |r| >= 1
    ensures Join(r, sep) == s
    decreases |s|
  {
    match Find(s, sep)
    case None => [s]
    case Some(i) =>
      var rest := Split(s[i + |sep|..], sep);
      assert s == s[..i] + sep + s[i + |sep|..];
      assert ([s[..i]] + rest)[1..] == rest;
      [s[..i]] + rest
  }

  /** No piece of a split holds the separator. */
  lemma {:induction false} SplitPiecesLackSeparator(s: string, sep: string)
    requires |sep| > 0
    ensures forall k :: 0 <= k < |Split(s, sep)| ==> !Contains(Split(s, sep)[k], sep)
    decreases |s|
  {
    match Find(s, sep)
    case None =>
    case Some(i) =>
      assert !Contains(s[..i], sep) by {
        forall j | 0 <= j <= i && OccursAt(s[..i], sep, j) ensures false {
          OccursInPrefix(s, i, sep, j);
        }
      }
      SplitPiecesLackSeparator(s[i + |sep|..], sep);
  }

  /** `s.split(" ")[0]`: the text before the first space. */
  function FirstWord(s: string): (w: string)
    ensures forall i :: 0 <= i < |w| ==> w[i] != ' '
  {
    var w := Split(s, " ")[0];
    SplitPiecesLackSeparator(s, " ");
    assert forall i :: 0 <= i < |w| && w[i] == ' ' ==> OccursAt(w, " ", i) by {
      forall i | 0 <= i < |w| && w[i] == ' ' ensures OccursAt(w, " ", i) {
        assert w[i..i + 1] == [w[i]];
      }
    }
    w
  }

  /** `Find` returns the first occurrence. */
  lemma FindFirst(s: string, sep: string, k: nat)
    requires |sep| > 0 && OccursAt(s, sep, k)
    requires forall j :: 0 <= j < k ==> !OccursAt(s, sep, j)
    ensures Find(s, sep) == Some(k)
  {
    assert Contains(s, sep) by {
      assert 0 <= k <= |s|;
    }
  }

  /** Splitting at the first occurrence of `sep`, found at `k`. */
  lemma SplitAtFirst(s: string, sep: string, k: nat)
    requires |sep| > 0 && OccursAt(s, sep, k)
    requires forall j :: 0 <= j < k ==> !OccursAt(s, sep, j)
    ensures Split(s, sep) == [s[..k]] + Split(s[k + |sep|..], sep)
  {
    FindFirst(s, sep, k);
  }

  /** A string without `sep` is its own single piece. */
  lemma SplitWithout(s: string, sep: string)
    requires |sep| > 0
    requires forall j :: 0 <= j <= |s| ==> !OccursAt(s, sep, j)
    ensures Split(s, sep) == [s]
  {
    assert !Contains(s, sep);
  }

  /** Two non-overlapping occurrences of `sep` give at least three pieces. */
  lemma SplitAtTwoOccurrences(s: string, sep: string, j: nat, m: nat)
    requires |sep| > 0 && OccursAt(s, sep, j) && OccursAt(s, sep, m) && j + |sep| <= m
    ensures |Split(s, sep)| >= 3
  {
    var k := Find(s, sep).value;
    assert k <= j;
    var rest := s[k + |sep|..];
    assert rest[m - k - |sep|..m - k] == s[m..m + |sep|];
    assert OccursAt(rest, sep, m - k - |sep|);
    SplitAtFirst(s, sep, k);
    SplitAtOccurrence(rest, sep);
  }

  /** A string containing `sep` splits into at least two pieces. */
  lemma SplitAtOccurrence(s: string, sep: string)
    requires |sep| > 0 && Contains(s, sep)
    ensures |Split(s, sep)| >= 2
  {
  }
}
