/**
 * The pure half of the video stream handler: reading a `Range` request
 * header, fitting the requested window to the stored content, and the
 * PostgreSQL `substring(bytea from s for n)` that fetches it (byte ranges
 * as in sections 2.1, 4.1, 4.2 and 4.4 of RFC 7233, with the departures
 * the handler makes: no suffix ranges, and no check that the first byte
 * lies inside the content).
 */
module ByteRanges {
  import opened Wrappers
  import opened Text
  import opened Store

  /** `bytes=<first>-<last?>`: positions are 0-based and inclusive; `last` may be left open. */
  datatype ByteRange = ByteRange(first: nat, last: Option<nat>)

  /** The match of `bytes=(\d+)-(\d*)` starting exactly at position `i`, if there is one. */
  function MatchAt(s: string, i: nat): (r: Option<ByteRange>)
    requires i <= |s|
    ensures r.Some? ==> OccursAt(s, "bytes=", i)
  {
    if !StartsWith(s[i..], "bytes=") then None
    else
      assert s[i..][..6] == s[i..i + 6];
      var rest := s[i + 6..];
      var d1 := DigitPrefix(rest);
      if d1 == [] || |d1| == |rest| || rest[|d1|] != '-' then None
      else
        var d2 := DigitPrefix(rest[|d1| + 1..]);
        Some(ByteRange(DecimalValue(d1), if d2 == [] then None else Some(DecimalValue(d2))))
  }

  /** The leftmost match at or after position `i` (the regular expression is not anchored). */
  function FindRange(s: string, i: nat): Option<ByteRange>
    requires i <= |s|
    decreases |s| - i
  {
    match MatchAt(s, i)
    case Some(r) => Some(r)
    case None => if i == |s| then None else FindRange(s, i + 1)
  }

  /** The first match of the unanchored byte-range pattern in the header, its digit groups read as decimal numbers and an empty second group as no last position. */
  function ParseRange(s: string): Option<ByteRange> {
    FindRange(s, 0)
  }

  lemma {:induction false} FindRangeNone(s: string, i: nat)
    requires i <= |s|
    requires forall j | i <= j <= |s| :: MatchAt(s, j).None?
    ensures FindRange(s, i).None?
    decreases |s| - i
  {
    if i < |s| {
      FindRangeNone(s, i + 1);
    }
  }

  lemma DigitPrefixStops(d: string, x: string)
    requires AllDigits(d) && (x == [] || !IsDigit(x[0]))
    ensures DigitPrefix(d + x) == d
  {
    if d != [] {
      assert (d + x)[1..] == d[1..] + x;
      DigitPrefixStops(d[1..], x);
    }
  }

  /** The header text a client sends for a range. */
  function RangeHeader(r: ByteRange): string {
    "bytes=" + NatToDecimal(r.first) + "-" + (if r.last.Some? then NatToDecimal(r.last.value) else "")
  }

  lemma MatchHeader(d1: string, d2: string)
    requires d1 != [] && AllDigits(d1) && AllDigits(d2)
    ensures MatchAt("bytes=" + d1 + "-" + d2, 0)
      == Some(ByteRange(DecimalValue(d1), if d2 == [] then None else Some(DecimalValue(d2))))
  {
    var s := "bytes=" + d1 + "-" + d2;
    assert s[0..][..6] == "bytes=";
    var rest := s[6..];
    assert rest == d1 + ("-" + d2);
    DigitPrefixStops(d1, "-" + d2);
    assert rest[|d1|] == '-';
    assert rest[|d1| + 1..] == d2;
    DigitPrefixAll(d2);
  }

  /** Every range the handler understands is read back from its own header text. */
  lemma ParseRangeHeader(r: ByteRange)
    ensures ParseRange(RangeHeader(r)) == Some(r)
  {
    var d2 := if r.last.Some? then NatToDecimal(r.last.value) else "";
    assert RangeHeader(r) == "bytes=" + NatToDecimal(r.first) + "-" + d2;
    MatchHeader(NatToDecimal(r.first), d2);
    DecimalRoundTrip(r.first);
    if r.last.Some? {
      DecimalRoundTrip(r.last.value);
    }
  }

  /** A suffix range `bytes=-N` (section 2.1 of RFC 7233) is not understood. */
  lemma SuffixRangeRejected(n: nat)
    ensures ParseRange("bytes=-" + NatToDecimal(n)).None?
  {
    var s := "bytes=-" + NatToDecimal(n);
    forall j | 0 <= j <= |s|
      ensures MatchAt(s, j).None?
    {
      if j == 0 {
        assert s[6..][0] == '-';
      } else if j < |s| {
        assert s[j] != 'b' by {
          if j >= 7 {
            assert s[j] == NatToDecimal(n)[j - 7];
          }
        }
        assert s[j..][0] == s[j];
      }
    }
    FindRangeNone(s, 0);
  }

  /** A header without `bytes=` anywhere in it is not understood. */
  lemma NoUnitNoRange(s: string)
    requires !Contains(s, "bytes=")
    ensures ParseRange(s).None?
  {
    forall j | 0 <= j <= |s|
      ensures MatchAt(s, j).None?
    {
    }
    FindRangeNone(s, 0);
  }

  /** The window the handler sends: `realEnd` is clamped to the last byte, `chunkSize` counts the bytes. */
  datatype Window = Window(start: nat, realEnd: int, chunkSize: int)

  function Min(a: int, b: int): int {
    if a <= b then a else b
  }

  function ResolveWindow(r: ByteRange, total: nat): (w: Window)
    ensures w.start == r.first
    // realEnd is the largest position no later than the requested last byte and the last byte of the content
    ensures w.realEnd <= total - 1 && (r.last.Some? ==> w.realEnd <= r.last.value)
    ensures w.realEnd == total - 1 || (r.last.Some? && w.realEnd == r.last.value)
    // a non-empty window never passes the last byte
    ensures w.chunkSize >= 1 <==> w.start <= w.realEnd
    ensures w.start <= w.realEnd ==> w.start + w.chunkSize <= total
    ensures w.start + w.chunkSize == w.realEnd + 1
  {
    var realEnd := if r.last.Some? then Min(r.last.value, total - 1) else total - 1;
    Window(r.first, realEnd, realEnd - r.first + 1)
  }

  function Max(a: int, b: int): int {
    if a >= b then a else b
  }

  /**
   * PostgreSQL `substring(b from from for count)` on a non-NULL value:
   * positions are 1-based, a negative count is an error (None), and the
   * part outside the value is cut off.
   */
  function Substring(b: Bytes, from: int, count: int): (r: Option<Bytes>)
    ensures r.None? <==> count < 0
    ensures r.Some? && from >= 1 ==> |r.value| == Max(0, Min(count, |b| - (from - 1)))
    ensures r.Some? && from >= 1 ==> forall k :: 0 <= k < |r.value| ==> r.value[k] == b[from - 1 + k]
  {
    if count < 0 then None
    else
      var lo := Min(Max(from - 1, 0), |b|);
      var hi := Max(Min(from - 1 + count, |b|), lo);
      Some(b[lo..hi])
  }

  /** The read the handler issues at 1-based offset start + 1 for chunkSize bytes returns exactly the window. */
  lemma WindowRead(content: Bytes, r: ByteRange)
    requires ResolveWindow(r, |content|).chunkSize >= 0
    ensures var w := ResolveWindow(r, |content|);
      w.realEnd + 1 <= |content| &&
      Substring(content, w.start + 1, w.chunkSize) == Some(content[w.start..w.realEnd + 1])
  {
  }

  /** A window that ends before it starts is a negative count, which PostgreSQL refuses. */
  lemma InvertedWindowFails(content: Bytes, r: ByteRange)
    requires ResolveWindow(r, |content|).chunkSize < 0
    ensures var w := ResolveWindow(r, |content|); r.first > w.realEnd + 1 && Substring(content, w.start + 1, w.chunkSize).None?
  {
  }

  /** The `Content-Range` value `bytes first-last/total` (section 4.2 of RFC 7233). */
  function ContentRange(first: int, last: int, total: nat): string {
    "bytes " + IntToDecimal(first) + "-" + IntToDecimal(last) + "/" + NatToDecimal(total)
  }
}
