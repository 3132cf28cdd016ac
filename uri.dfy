/** `encodeURIComponent`, which the pages apply to the region id they put into
    a request path: characters outside the unreserved set are written as the
    `%XX` escapes of their UTF-8 bytes. */
module Uri {
  import opened Text

  /** The characters `encodeURIComponent` leaves as they are. */
  predicate IsUnreserved(c: char) {
    || ('A' <= c <= 'Z') || ('a' <= c <= 'z') || ('0' <= c <= '9')
    || c == '-' || c == '_' || c == '.' || c == '!' || c == '~' || c == '*' || c == '\'' || c == '(' || c == ')'
  }

  /** The UTF-8 encoding of a character. */
  function Utf8(c: char): (bs: seq<int>)
    ensures 1 <= |bs| <= 4
    ensures forall i :: 0 <= i < |bs| ==> 0 <= bs[i] < 256
    ensures (c as int < 0x80) <==> |bs| == 1
    ensures |bs| == 1 ==> bs[0] == c as int
  {
    var n := c as int;
    if n < 0x80 then [n]
    else if n < 0x800 then [0xC0 + n / 64, 0x80 + n % 64]
    else if n < 0x10000 then [0xE0 + n / 4096, 0x80 + (n / 64) % 64, 0x80 + n % 64]
    else [0xF0 + n / 262144, 0x80 + (n / 4096) % 64, 0x80 + (n / 64) % 64, 0x80 + n % 64]
  }

  function HexDigit(d: int): (c: char)
    requires 0 <= d < 16
    ensures IsUnreserved(c)
  {
    "0123456789ABCDEF"[d]
  }

  /** `%XX` for one byte, in upper-case hexadecimal. */
  function Escape(b: int): (s: string)
    requires 0 <= b < 256
    ensures |s| == 3 && s[0] == '%' && IsUnreserved(s[1]) && IsUnreserved(s[2])
  {
    ['%', HexDigit(b / 16), HexDigit(b % 16)]
  }

  function Escapes(bs: seq<int>): (s: string)
    requires forall i :: 0 <= i < |bs| ==> 0 <= bs[i] < 256
    ensures |s| == 3 * |bs|
    ensures forall i :: 0 <= i < |s| ==> s[i] == '%' || IsUnreserved(s[i])
  {
    if bs == [] then "" else Escape(bs[0]) + Escapes(bs[1..])
  }

  /** Only unreserved characters and `%` occur in an encoding. */
  predicate UriSafe(s: string) {
    forall i :: 0 <= i < |s| ==> s[i] == '%' || IsUnreserved(s[i])
  }

  function EncodeChar(c: char): (s: string)
    ensures UriSafe(s)
    ensures IsUnreserved(c) ==> s == [c]
    ensures !IsUnreserved(c) ==> |s| >= 3 && s[0] == '%'
  {
    if IsUnreserved(c) then [c] else Escapes(Utf8(c))
  }

  /** `encodeURIComponent(s)`. Every result is URI-safe, so it cannot add a
      path separator, a query or a fragment to the URL it is put into. */
  function EncodeURIComponent(s: string): (r: string)
    ensures UriSafe(r)
    ensures |r| >= |s|
  {
    if s == [] then "" else EncodeChar(s[0]) + EncodeURIComponent(s[1..])
  }

  /** A text made of unreserved characters is left as it is. */
  lemma {:induction false} EncodeUnreserved(s: string)
    requires forall i :: 0 <= i < |s| ==> IsUnreserved(s[i])
    ensures EncodeURIComponent(s) == s
  {
    if s != [] {
      EncodeUnreserved(s[1..]);
    }
  }

  /** The decimal rendering of an integer is left as it is. */
  lemma EncodeDecimal(n: int)
    ensures EncodeURIComponent(IntToDecimal(n)) == IntToDecimal(n)
  {
    EncodeUnreserved(IntToDecimal(n));
  }

  /** A character that must be escaped is not left in the output: a `/` in
      the input becomes `%2F`. */
  lemma EncodeSlash()
    ensures EncodeURIComponent("/") == "%2F"
  {
    assert Utf8('/') == [0x2F];
  }
}
