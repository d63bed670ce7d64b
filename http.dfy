/** The HTTP side of the downloader: the status gate of ranged responses,
    the `Range: bytes=<first>-<last>` header value (section 14.1.2 of
    RFC 9110, sent as the header of section 14.2), and the replies the
    client library hands back, which the model takes as given inputs. */
module Http {
  import opened Base

  const STATUS_OK: nat := 200
  const STATUS_PARTIAL_CONTENT: nat := 206

  /** A ranged response is accepted only with 200 OK or 206 Partial Content
      (sections 15.3.1 and 15.3.7 of RFC 9110). */
  predicate IsAcceptedStatus(status: nat)
  {
    status == STATUS_OK || status == STATUS_PARTIAL_CONTENT
  }

  /** An inclusive byte range `first..=last` of the resource. */
  datatype Window = Window(first: nat, last: nat)

  /** Number of bytes a window asks for. */
  function Size(w: Window): int
  {
    w.last - w.first + 1
  }

  // ---------------------------------------------------------------------
  // Decimal rendering of positions, as `format!("{}", n)` writes a u64
  // ---------------------------------------------------------------------

  predicate IsDigit(c: char)
  {
    '0' <= c <= '9'
  }

  predicate AllDigits(s: string)
  {
    forall i :: 0 <= i < |s| ==> IsDigit(s[i])
  }

  function DigitChar(d: nat): (c: char)
    requires d < 10
    ensures IsDigit(c) && (c as int) - ('0' as int) == d
  {
    ('0' as int + d) as char
  }

  function DigitValue(c: char): nat
    requires IsDigit(c)
  {
    (c as int) - ('0' as int)
  }

  /** Shortest decimal form of `n`, most significant digit first. */
  function Decimal(n: nat): (s: string)
    ensures |s| >= 1 && AllDigits(s)
    ensures |s| > 1 ==> s[0] != '0'
  {
    if n < 10 then [DigitChar(n)] else Decimal(n / 10) + [DigitChar(n % 10)]
  }

  function ParseDecimal(s: string): nat
    requires AllDigits(s)
  {
    if s == [] then 0 else ParseDecimal(s[..|s| - 1]) * 10 + DigitValue(s[|s| - 1])
  }

  lemma {:induction false} ParseDecimalOfDecimal(n: nat)
    ensures ParseDecimal(Decimal(n)) == n
  {
    var s := Decimal(n);
    if n >= 10 {
      assert s[..|s| - 1] == Decimal(n / 10);
      ParseDecimalOfDecimal(n / 10);
    }
  }

  // ---------------------------------------------------------------------
  // The Range header value
  // ---------------------------------------------------------------------

  const RANGE_UNIT_PREFIX: string := "bytes="

  /** The header value `download` sends for one window (src/downloader.rs:80). */
  function RangeHeader(w: Window): (s: string)
    ensures |s| > |RANGE_UNIT_PREFIX| && s[..|RANGE_UNIT_PREFIX|] == RANGE_UNIT_PREFIX
  {
    RANGE_UNIT_PREFIX + Decimal(w.first) + "-" + Decimal(w.last)
  }

  /** Index of the first occurrence of `c` in `s`. */
  function IndexOf(s: string, c: char): (r: Option<nat>)
    ensures r.Some? ==> r.value < |s| && s[r.value] == c && c !in s[..r.value]
    ensures r.None? ==> c !in s
  {
    if s == [] then None
    else if s[0] == c then Some(0)
    else match IndexOf(s[1..], c)
      case None => None
      case Some(k) => assert s[..k + 1] == [s[0]] + s[1..][..k]; Some(k + 1)
  }

  /** Reads a single byte-range-spec `bytes=<first>-<last>` back into a
      window; `None` for anything that is not one, including a range whose
      last position precedes its first (section 14.1.2 of RFC 9110). */
  function ParseRangeHeader(s: string): (r: Option<Window>)
    ensures r.Some? ==> r.value.first <= r.value.last
  {
    var p := |RANGE_UNIT_PREFIX|;
    if |s| < p || s[..p] != RANGE_UNIT_PREFIX then None
    else
      var spec := s[p..];
      match IndexOf(spec, '-')
      case None => None
      case Some(k) =>
        var first, last := spec[..k], spec[k + 1..];
        if first == [] || last == [] || !AllDigits(first) || !AllDigits(last) then None
        else if ParseDecimal(first) <= ParseDecimal(last) then
          Some(Window(ParseDecimal(first), ParseDecimal(last)))
        else None
  }

  /** Every non-empty window's header value is a well-formed single range
      that names exactly that window. */
  lemma RangeHeaderRoundTrip(w: Window)
    requires w.first <= w.last
    ensures ParseRangeHeader(RangeHeader(w)) == Some(w)
  {
    var a, b := Decimal(w.first), Decimal(w.last);
    var s := RangeHeader(w);
    var p := |RANGE_UNIT_PREFIX|;
    var spec := s[p..];
    assert spec == a + "-" + b;
    assert '-' !in a by {
      forall i | 0 <= i < |a| ensures a[i] != '-' { assert IsDigit(a[i]); }
    }
    assert spec[..|a|] == a;
    assert spec[|a|] == '-';
    assert IndexOf(spec, '-') == Some(|a|);
    assert spec[..|a|] == a && spec[|a| + 1..] == b;
    ParseDecimalOfDecimal(w.first);
    ParseDecimalOfDecimal(w.last);
  }

  // ---------------------------------------------------------------------
  // Replies of the HTTP client, taken as inputs
  // ---------------------------------------------------------------------

  /** Answer to the HEAD request of `download`: either the request could not
      be sent, or a response with an optional `Content-Length` and the
      result of reading its text (`None` when reading it fails). */
  datatype HeadReply =
    | HeadSendFailed
    | HeadResponse(contentLength: Option<u64>, text: Option<Bytes>)

  /** Answer to one ranged GET: either it could not be sent, or a response
      with a status code and the body bytes that reached the file; `complete`
      is false when copying the body stopped with an error after `body`. */
  datatype RangeReply =
    | RangeSendFailed
    | RangeResponse(status: nat, body: Bytes, complete: bool)

  /** One item of a streamed response body. */
  datatype StreamItem = Chunk(data: Bytes) | StreamFault

  /** Answer to the GET of `download_async`: either it could not be sent, or
      a response with an optional `Content-Length` and its body stream. */
  datatype GetReply =
    | GetSendFailed
    | GetResponse(contentLength: Option<u64>, stream: seq<StreamItem>)
}
