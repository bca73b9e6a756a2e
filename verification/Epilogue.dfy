/** `fetchMatchIDFromEpilogue`: the match id is read from the end of the replay log, behind the last `matchId_`. */
module Epilogue {
  import opened Numbers
  import opened Names
  import opened Options

  const MARKER := "matchId_"
  const TAIL_SIZE := 8192
  const MAX_INT64 := 0x7FFF_FFFF_FFFF_FFFF

  /** `strings.LastIndex` below `n`: the last index where `sub` occurs, or -1. */
  function LastIndexBelow(s: string, sub: string, n: nat): (r: int)
    ensures r == -1 || (0 <= r < n && OccursAt(s, sub, r))
    ensures forall k: nat | r < k < n :: !OccursAt(s, sub, k)
  {
    if n == 0 then -1 else if OccursAt(s, sub, n - 1) then n - 1 else LastIndexBelow(s, sub, n - 1)
  }

  function LastIndex(s: string, sub: string): int {
    LastIndexBelow(s, sub, |s|)
  }

  /** `strconv.ParseInt` of a string of digits; too large a number gives the largest one. */
  function ParseInt(digits: string): nat
    requires AllDigits(digits)
  {
    if Value(digits) <= MAX_INT64 then Value(digits) else MAX_INT64
  }

  /** The last bytes of the file that are searched. */
  function TailOf(content: string): string {
    if |content| <= TAIL_SIZE then content else content[|content| - TAIL_SIZE..]
  }

  predicate DigitAt(s: string, i: nat) {
    i < |s| && IsDigit(s[i])
  }

  /** The scan of `s` from `from` passes over what is no digit up to `start` and over digits up to `end`. */
  predicate Scans(s: string, from: nat, start: nat, end: nat) {
    && from <= start <= end <= |s|
    && (forall i | from <= i < start :: !DigitAt(s, i))
    && AllDigits(s[start..end])
    && (end < |s| ==> start < end && !DigitAt(s, end))
  }

  /** A file that cannot be read has no content. */
  method FetchMatchId(content: Option<string>) returns (id: nat)
    ensures content.None? ==> id == 0
    ensures content.Some? ==> Fetched(TailOf(content.value), id)
  {
    if content.None? || |content.value| == 0 {
      return 0;
    }
    var s := TailOf(content.value);
    var idx := LastIndex(s, MARKER);
    if idx == -1 {
      return 0;
    }
    var start := idx + |MARKER|;
    while start < |s| && (s[start] < '0' || s[start] > '9')
      invariant idx + |MARKER| <= start <= |s| && forall i | idx + |MARKER| <= i < start :: !DigitAt(s, i)
    {
      start := start + 1;
    }
    var end := start;
    while end < |s| && '0' <= s[end] <= '9'
      invariant start <= end <= |s| && AllDigits(s[start..end])
      invariant start < end || end == |s| || DigitAt(s, end)
    {
      assert s[start..end + 1] == s[start..end] + [s[end]];
      end := end + 1;
    }
    assert Scans(s, idx + |MARKER|, start, end);
    if start == end {
      return 0;
    }
    id := ParseInt(s[start..end]);
  }

  /** The id a tail stands for: 0 without a marker; otherwise the first run of digits behind the last marker, 0 if there
      is none. */
  ghost predicate Fetched(s: string, id: nat) {
    var idx := LastIndex(s, MARKER);
    if idx == -1 then id == 0 else FetchedFrom(s, idx + |MARKER|, id)
  }

  ghost predicate FetchedFrom(s: string, from: nat, id: nat) {
    exists start: nat, end: nat ::
      Scans(s, from, start, end) && id == if start == end then 0 else ParseInt(s[start..end])
  }

  // ---------- the scan finds one thing only ----------

  lemma DigitsAt(s: string, start: nat, end: nat)
    requires start <= end <= |s| && AllDigits(s[start..end])
    ensures forall i | start <= i < end :: DigitAt(s, i)
  {}

  lemma ScanUnique(s: string, from: nat, i: nat, j: nat, k: nat, l: nat)
    requires Scans(s, from, i, j) && Scans(s, from, k, l)
    ensures i == k && j == l
  {
    DigitsAt(s, i, j);
    DigitsAt(s, k, l);
    assert i < k ==> !DigitAt(s, i);
    assert k < i ==> !DigitAt(s, k);
    assert i == k;
    assert j < l ==> DigitAt(s, j);
    assert l < j ==> DigitAt(s, l);
  }

  /** A tail stands for one id. */
  lemma FetchedUnique(s: string, i: nat, j: nat)
    requires Fetched(s, i) && Fetched(s, j)
    ensures i == j
  {
    var idx := LastIndex(s, MARKER);
    if idx != -1 {
      FetchedFromUnique(s, idx + |MARKER|, i, j);
    }
  }

  lemma FetchedFromUnique(s: string, from: nat, i: nat, j: nat)
    requires FetchedFrom(s, from, i) && FetchedFrom(s, from, j)
    ensures i == j
  {
    var a: nat, b: nat :| Scans(s, from, a, b) && i == if a == b then 0 else ParseInt(s[a..b]);
    var c: nat, d: nat :| Scans(s, from, c, d) && j == if c == d then 0 else ParseInt(s[c..d]);
    ScanUnique(s, from, a, b, c, d);
  }

  // ---------- reading back what was printed ----------

  predicate NoDigits(s: string) {
    forall i | 0 <= i < |s| :: !IsDigit(s[i])
  }

  /** The file ends in the marker, a gap, the printed number and a rest, all within the bytes that are searched, and the
      marker does not occur again. */
  predicate Announces(content: string, before: string, gap: string, n: nat, rest: string) {
    && content == before + "matchId_" + gap + Decimal(n) + rest
    && NoDigits(gap) && (rest == "" || !IsDigit(rest[0]))
    && |content| - |before| <= 8192
    && forall k: nat | |before| < k < |content| :: !OccursAt(content, "matchId_", k)
  }

  lemma OccursInTail(content: string, cut: nat, k: nat)
    requires cut <= |content|
    ensures OccursAt(content[cut..], MARKER, k) <==> OccursAt(content, MARKER, cut + k)
  {}

  /** The last marker of the tail is the last marker of the file. */
  lemma LastMarker(content: string, at: nat)
    requires OccursAt(content, MARKER, at) && |content| - at <= TAIL_SIZE
    requires forall k: nat | at < k < |content| :: !OccursAt(content, MARKER, k)
    ensures LastIndex(TailOf(content), MARKER) == at - (|content| - |TailOf(content)|)
  {
    var s := TailOf(content);
    var cut := |content| - |s|;
    assert content[cut..] == s;
    OccursInTail(content, cut, at - cut);
    var idx := LastIndex(s, MARKER);
    assert idx >= at - cut;
    OccursInTail(content, cut, idx);
  }

  /** Behind the last marker of the tail stands what stands behind the last marker of the file. */
  lemma TailForm(content: string, before: string, text: string)
    requires content == before + MARKER + text && |content| - |before| <= TAIL_SIZE
    requires forall k: nat | |before| < k < |content| :: !OccursAt(content, MARKER, k)
    ensures (var s := TailOf(content);
             var idx := LastIndex(s, MARKER);
             idx >= 0 && idx + |MARKER| <= |s| && s[idx + |MARKER|..] == text)
  {
    assert OccursAt(content, MARKER, |before|);
    LastMarker(content, |before|);
    var s := TailOf(content);
    assert s == content[|content| - |s|..];
    assert s[|s| - |text|..] == content[|content| - |text|..];
    assert content[|content| - |text|..] == text;
  }

  lemma SliceOfSuffix(s: string, from: nat, i: nat, j: nat)
    requires from + i <= from + j <= |s|
    ensures s[from..][i..j] == s[from + i..from + j]
  {}

  lemma PrintFetched(s: string, from: nat, gap: string, n: nat, rest: string)
    requires from <= |s| && s[from..] == gap + Decimal(n) + rest && NoDigits(gap) && (rest == "" || !IsDigit(rest[0]))
    ensures FetchedFrom(s, from, ParseInt(Decimal(n)))
  {
    var start, end := from + |gap|, from + |gap| + |Decimal(n)|;
    assert forall i: nat | i < |s| - from :: s[from + i] == s[from..][i];
    assert forall i: nat | from <= i < start :: s[i] == gap[i - from];
    SliceOfSuffix(s, from, |gap|, |gap| + |Decimal(n)|);
    assert s[start..end] == Decimal(n);
    assert end < |s| ==> s[end] == rest[0];
    assert Scans(s, from, start, end);
  }

  lemma Regroup(before: string, gap: string, digits: string, rest: string)
    ensures before + MARKER + gap + digits + rest == before + MARKER + (gap + digits + rest)
  {}

  /** The tail of such a file stands for the parsed print. */
  lemma PrintIsFetched(content: string, before: string, gap: string, n: nat, rest: string)
    requires Announces(content, before, gap, n, rest)
    ensures Fetched(TailOf(content), ParseInt(Decimal(n)))
  {
    Regroup(before, gap, Decimal(n), rest);
    TailForm(content, before, gap + Decimal(n) + rest);
    PrintFetched(TailOf(content), LastIndex(TailOf(content), MARKER) + |MARKER|, gap, n, rest);
  }

  /** The id read from such a file is the printed number exactly when it fits 64 bits, and the largest 64-bit number
      otherwise. */
  lemma PrintedIdIsRead(content: string, before: string, gap: string, n: nat, rest: string, id: nat)
    requires Announces(content, before, gap, n, rest) && Fetched(TailOf(content), id)
    ensures id == n <==> n < 0x8000_0000_0000_0000
    ensures n >= 0x8000_0000_0000_0000 ==> id == 0x7FFF_FFFF_FFFF_FFFF
  {
    PrintIsFetched(content, before, gap, n, rest);
    FetchedUnique(TailOf(content), id, ParseInt(Decimal(n)));
  }

  /** A marker that begins more than 8192 bytes before the end is not seen. */
  lemma FarMarkerIsIgnored(content: string, id: nat)
    requires forall k: nat | OccursAt(content, "matchId_", k) :: k + 8192 < |content|
    requires Fetched(TailOf(content), id)
    ensures id == 0
  {
    var s := TailOf(content);
    var cut := |content| - |s|;
    assert s == content[cut..];
    var idx := LastIndex(s, MARKER);
    if idx != -1 {
      OccursInTail(content, cut, idx);
    }
  }
}
