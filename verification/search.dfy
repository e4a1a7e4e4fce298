/**
  Text search over the flattened screen and the reading of a decimal status
  value that follows a label.
 */
module Search {
  import opened NhBot

  /** `memcmp(haystack + i, needle, nlen) == 0`. */
  predicate MatchAt(hay: seq<byte>, needle: seq<byte>, i: int)
    requires 0 <= i && i + |needle| <= |hay|
  {
    hay[i..i + |needle|] == needle
  }

  /**
    The search loop from start `i` on. Like the C code, it stops before
    `|hay| - |needle|`: the last start position is never compared.
   */
  function ScanFrom(hay: seq<byte>, needle: seq<byte>, i: int): (r: int)
    requires |needle| <= |hay| && 0 <= i <= |hay| - |needle|
    decreases |hay| - |needle| - i
    ensures r == -1 || (i <= r < |hay| - |needle| && MatchAt(hay, needle, r))
    ensures forall j :: i <= j < (if r == -1 then |hay| - |needle| else r) ==> !MatchAt(hay, needle, j)
  {
    if i == |hay| - |needle| then -1
    else if MatchAt(hay, needle, i) then i
    else ScanFrom(hay, needle, i + 1)
  }

  /** `screen_text_exists`. */
  function TextExists(hay: seq<byte>, needle: seq<byte>): (b: bool)
    ensures b <==> |needle| <= |hay| &&
                   exists i :: 0 <= i < |hay| - |needle| && MatchAt(hay, needle, i)
  {
    |needle| <= |hay| && ScanFrom(hay, needle, 0) != -1
  }

  /**
    `screen_text_find`: the first tested start that matches, or -1; a needle
    longer than the haystack yields 0 (the C code returns `false`).
   */
  function TextFind(hay: seq<byte>, needle: seq<byte>): (p: int)
    ensures |hay| < |needle| ==> p == 0
    ensures |needle| <= |hay| ==> -1 <= p < |hay| - |needle|
    ensures |needle| <= |hay| && p != -1 ==>
              MatchAt(hay, needle, p) && forall j :: 0 <= j < p ==> !MatchAt(hay, needle, j)
    ensures |needle| <= |hay| && p == -1 ==>
              forall j :: 0 <= j < |hay| - |needle| ==> !MatchAt(hay, needle, j)
  {
    if |needle| > |hay| then 0 else ScanFrom(hay, needle, 0)
  }

  /**
    The two searches agree on whether the needle was found, except that an
    over-long needle is reported by `TextFind` as a match at 0.
   */
  lemma FindAgreesWithExists(hay: seq<byte>, needle: seq<byte>)
    ensures |needle| <= |hay| ==> (TextExists(hay, needle) <==> TextFind(hay, needle) >= 0)
    ensures |hay| < |needle| ==> !TextExists(hay, needle) && TextFind(hay, needle) == 0
  {
  }

  /** A needle that occurs only as the haystack's suffix is not found. */
  lemma SuffixOccurrenceMissed(pre: seq<byte>, needle: seq<byte>)
    requires forall i :: 0 <= i < |pre| ==> !MatchAt(pre + needle, needle, i)
    ensures MatchAt(pre + needle, needle, |pre|)
    ensures !TextExists(pre + needle, needle)
    ensures TextFind(pre + needle, needle) == -1
  {
    assert (pre + needle)[|pre|..|pre| + |needle|] == needle;
  }

  /** `isdigit` on a byte. */
  predicate IsDigit(b: byte) {
    Chr('0') <= b <= Chr('9')
  }

  predicate AllDigits(ds: seq<byte>) {
    forall i :: 0 <= i < |ds| ==> IsDigit(ds[i])
  }

  /**
    The length of the run of digits starting at `start`. The run also stops
    at the end of the character grid: the byte that follows it in memory is
    the first colour byte, which is below 32 and so never a digit.
   */
  function DigitRun(hay: seq<byte>, start: int): (n: nat)
    requires 0 <= start <= |hay|
    decreases |hay| - start
    ensures start + n <= |hay|
    ensures forall j :: start <= j < start + n ==> IsDigit(hay[j])
    ensures start + n < |hay| ==> !IsDigit(hay[start + n])
  {
    if start < |hay| && IsDigit(hay[start]) then 1 + DigitRun(hay, start + 1) else 0
  }

  /** The run length is the position of the first non-digit. */
  lemma {:induction false} DigitRunOfDigits(hay: seq<byte>, start: int, k: nat)
    requires 0 <= start && start + k <= |hay|
    requires forall j :: start <= j < start + k ==> IsDigit(hay[j])
    requires start + k == |hay| || !IsDigit(hay[start + k])
    ensures DigitRun(hay, start) == k
    decreases k
  {
    if k > 0 {
      DigitRunOfDigits(hay, start + 1, k - 1);
    }
  }

  /** The digits the scan copies into its buffer: the run of digits starting at `start`. */
  function DigitsFrom(hay: seq<byte>, start: int): (ds: seq<byte>)
    requires 0 <= start <= |hay|
    decreases |hay| - start
    ensures AllDigits(ds) && |ds| == DigitRun(hay, start)
  {
    if start < |hay| && IsDigit(hay[start]) then [hay[start]] + DigitsFrom(hay, start + 1) else []
  }

  function Pow10(k: nat): (p: nat)
    ensures p >= 1
  {
    if k == 0 then 1 else 10 * Pow10(k - 1)
  }

  /**
    `atoi` of a digit string (the empty string reads as 0). The value has at
    most `|ds|` digits, and exactly that many when there is no leading zero.
   */
  function DecimalValue(ds: seq<byte>): (v: nat)
    requires AllDigits(ds)
    ensures v < Pow10(|ds|)
    ensures |ds| > 0 && ds[0] != Chr('0') ==> Pow10(|ds| - 1) <= v
  {
    if |ds| == 0 then 0
    else DecimalValue(ds[..|ds| - 1]) * 10 + (ds[|ds| - 1] - Chr('0')) as int
  }

  /** The decimal representation of `n`, without leading zeros. */
  function Decimal(n: nat): (ds: seq<byte>)
    ensures |ds| >= 1 && AllDigits(ds)
    ensures |ds| > 1 ==> ds[0] != Chr('0')
  {
    if n < 10 then [(n + 48) as byte] else Decimal(n / 10) + [(n % 10 + 48) as byte]
  }

  /** Parsing the printed form of a number gives the number back. */
  lemma {:induction false} DecimalRoundTrip(n: nat)
    ensures DecimalValue(Decimal(n)) == n
    decreases n
  {
    if n >= 10 {
      var ds := Decimal(n);
      assert ds[..|ds| - 1] == Decimal(n / 10);
      DecimalRoundTrip(n / 10);
    }
  }

  /**
    Where the digit scan of `screen_text_bl_int` starts: just after the first
    match, or at `|needle| - 1` when the label is missing (the C code adds
    the label length to the -1 it got back).
   */
  function StatStart(hay: seq<byte>, needle: seq<byte>): (start: int)
    requires 1 <= |needle| <= |hay|
    ensures 0 <= start < |hay|
  {
    TextFind(hay, needle) + |needle|
  }

  /** The digit scan of `screen_text_bl_int` fits its 32-byte buffer. */
  predicate StatReadable(hay: seq<byte>, needle: seq<byte>) {
    1 <= |needle| <= |hay| && DigitRun(hay, StatStart(hay, needle)) < 32
  }

  /**
    `screen_text_bl_int`; the position guess `hstart` is accepted and ignored.
    The value has no more decimal digits than the run the scan copied.
   */
  function StatInt(hstart: int, hay: seq<byte>, needle: seq<byte>): (n: nat)
    requires StatReadable(hay, needle)
    ensures n < Pow10(DigitRun(hay, StatStart(hay, needle)))
  {
    DecimalValue(DigitsFrom(hay, StatStart(hay, needle)))
  }

  /** `p` is a tested start where the needle matches, and no earlier start matches. */
  predicate FirstTestedMatch(hay: seq<byte>, needle: seq<byte>, p: int) {
    && 0 <= p < |hay| - |needle|
    && MatchAt(hay, needle, p)
    && forall j :: 0 <= j < p ==> !MatchAt(hay, needle, j)
  }

  /** A match at `p` with none before it is what `TextFind` reports. */
  lemma FindFirstMatch(hay: seq<byte>, needle: seq<byte>, p: int)
    requires FirstTestedMatch(hay, needle, p)
    ensures TextFind(hay, needle) == p
  {
  }

  /** Digits `ds` stored at `start` and followed by a non-digit or the end are exactly the run copied from there. */
  lemma {:induction false} RunOfStoredDigits(hay: seq<byte>, start: int, ds: seq<byte>)
    requires AllDigits(ds) && 0 <= start && start + |ds| <= |hay|
    requires hay[start..start + |ds|] == ds
    requires start + |ds| == |hay| || !IsDigit(hay[start + |ds|])
    ensures DigitsFrom(hay, start) == ds
    ensures DigitRun(hay, start) == |ds|
    decreases |ds|
  {
    if |ds| > 0 {
      assert hay[start] == ds[0];
      assert hay[start + 1..start + |ds|] == ds[1..];
      RunOfStoredDigits(hay, start + 1, ds[1..]);
      assert [ds[0]] + ds[1..] == ds;
    }
  }

  /** With the scan starting at stored digits `ds`, the value read is that of `ds`. */
  lemma StatIntOfDigits(hstart: int, hay: seq<byte>, needle: seq<byte>, start: int, ds: seq<byte>)
    requires 1 <= |needle| <= |hay| && StatStart(hay, needle) == start
    requires AllDigits(ds) && |ds| < 32 && start + |ds| <= |hay|
    requires hay[start..start + |ds|] == ds
    requires start + |ds| == |hay| || !IsDigit(hay[start + |ds|])
    ensures StatReadable(hay, needle)
    ensures StatInt(hstart, hay, needle) == DecimalValue(ds)
  {
    RunOfStoredDigits(hay, start, ds);
  }

  /**
    A label whose first tested occurrence is followed by the printed form of
    `n` and then a non-digit (or the grid's end) reads as `n`, whatever
    position guess is passed.
   */
  lemma StatOfPresentLabel(hstart: int, hay: seq<byte>, needle: seq<byte>, p: int, n: nat)
    requires 1 <= |needle| && FirstTestedMatch(hay, needle, p)
    requires |Decimal(n)| < 32 && p + |needle| + |Decimal(n)| <= |hay|
    requires hay[p + |needle|..p + |needle| + |Decimal(n)|] == Decimal(n)
    requires p + |needle| + |Decimal(n)| == |hay| || !IsDigit(hay[p + |needle| + |Decimal(n)|])
    ensures StatReadable(hay, needle)
    ensures StatInt(hstart, hay, needle) == n
  {
    FindFirstMatch(hay, needle, p);
    StatIntOfDigits(hstart, hay, needle, p + |needle|, Decimal(n));
    DecimalRoundTrip(n);
  }

  /** A label found with no digit after it reads as 0. */
  lemma StatWithoutDigits(hstart: int, hay: seq<byte>, needle: seq<byte>, p: int)
    requires 1 <= |needle| && FirstTestedMatch(hay, needle, p)
    requires !IsDigit(hay[p + |needle|])
    ensures StatReadable(hay, needle)
    ensures StatInt(hstart, hay, needle) == 0
  {
    assert TextFind(hay, needle) == p;
  }

  /**
    A missing label does not read as 0: the scan starts at `|needle| - 1`, so
    a digit there followed by a non-digit is what gets parsed.
   */
  lemma StatOfAbsentLabel(hstart: int, hay: seq<byte>, needle: seq<byte>)
    requires 1 <= |needle| < |hay|
    requires forall j :: 0 <= j < |hay| - |needle| ==> !MatchAt(hay, needle, j)
    requires IsDigit(hay[|needle| - 1]) && !IsDigit(hay[|needle|])
    ensures StatReadable(hay, needle)
    ensures StatInt(hstart, hay, needle) == (hay[|needle| - 1] - Chr('0')) as int
  {
    assert TextFind(hay, needle) == -1;
    var ds := [hay[|needle| - 1]];
    RunOfStoredDigits(hay, |needle| - 1, ds);
    assert ds[..0] == [];
  }
}
