/**
  Byte-level text helpers for the per-ticker CSV files: the two delimiters,
  Python's `str.strip()`, `str.lower()` and `s.split(',')[0]`, and the way
  `to_csv` joins the fields of one line.

  A file is a sequence of bytes and each byte is read as one character; the
  files written by the collector are ASCII, for which this is exact.
*/
module CsvBytes {

  type byte = x: int | 0 <= x < 256

  const NL: byte := 10
  const COMMA: byte := 44

  /** The bytes of an ASCII string literal. */
  function Ascii(s: string): seq<byte>
    requires forall i :: 0 <= i < |s| ==> s[i] as int < 256
  {
    seq(|s|, i requires 0 <= i < |s| => s[i] as int as byte)
  }

  /** The one-byte characters Python's `str.strip()` removes: tab, line feed,
      vertical tab, form feed, carriage return, the separators 0x1C-0x1F and
      space. */
  predicate IsSpace(b: byte)
  {
    9 <= b <= 13 || 28 <= b <= 32
  }

  /** Whitespace is made of control bytes and the space, never a comma; tab,
      line feed, carriage return and space are all whitespace, so `strip()`
      also removes the carriage return of a `\r\n` line ending. */
  lemma SpaceBytes(b: byte)
    ensures IsSpace(b) ==> b < 33 && b != COMMA
    ensures b == 9 || b == NL || b == 13 || b == 32 ==> IsSpace(b)
  {
  }

  /** Leading whitespace removed. */
  function StripLeft(s: seq<byte>): (r: seq<byte>)
    ensures |r| <= |s| && r == s[|s| - |r|..]
    ensures forall i :: 0 <= i < |s| - |r| ==> IsSpace(s[i])
    ensures r == [] || !IsSpace(r[0])
  {
    if |s| > 0 && IsSpace(s[0]) then StripLeft(s[1..]) else s
  }

  /** Trailing whitespace removed. */
  function StripRight(s: seq<byte>): (r: seq<byte>)
    ensures |r| <= |s| && r == s[..|r|]
    ensures forall i :: |r| <= i < |s| ==> IsSpace(s[i])
    ensures r == [] || !IsSpace(r[|r| - 1])
  {
    if |s| > 0 && IsSpace(s[|s| - 1]) then StripRight(s[..|s| - 1]) else s
  }

  /** `str.strip()`: whitespace removed at both ends. */
  function Strip(s: seq<byte>): (r: seq<byte>)
    ensures r == [] || (!IsSpace(r[0]) && !IsSpace(r[|r| - 1]))
    ensures r == [] <==> forall i :: 0 <= i < |s| ==> IsSpace(s[i])
  {
    var l := StripLeft(s);
    var r := StripRight(l);
    assert r == [] ==> l == [];
    r
  }

  /** `str.strip()` returns the slice of its input between the leading and the
      trailing whitespace: the bytes before position `i` and after the slice
      are all whitespace. */
  lemma StripIsSlice(s: seq<byte>) returns (i: nat)
    ensures var r := Strip(s);
            i + |r| <= |s| && r == s[i..i + |r|]
            && (forall k :: 0 <= k < i ==> IsSpace(s[k]))
            && (forall k :: i + |r| <= k < |s| ==> IsSpace(s[k]))
  {
    var l := StripLeft(s);
    var r := StripRight(l);
    i := |s| - |l|;
    SliceOfSlice(s, l, r);
  }

  /** Stripping the right end of the suffix `l` that `StripLeft` leaves gives
      a slice of the input, followed only by whitespace. */
  lemma SliceOfSlice(s: seq<byte>, l: seq<byte>, r: seq<byte>)
    requires |l| <= |s| && l == s[|s| - |l|..]
    requires |r| <= |l| && r == l[..|r|]
    requires forall j :: |r| <= j < |l| ==> IsSpace(l[j])
    ensures |s| - |l| + |r| <= |s| && r == s[|s| - |l|..|s| - |l| + |r|]
    ensures forall k :: |s| - |l| + |r| <= k < |s| ==> IsSpace(s[k])
  {
    var i := |s| - |l|;
    forall k | i + |r| <= k < |s| ensures IsSpace(s[k]) {
      assert s[k] == l[k - i];
    }
  }

  /** A line that starts with a non-space byte keeps, after stripping, every
      byte up to any later non-space byte. */
  lemma StripKeepsPrefix(s: seq<byte>, k: nat)
    requires k < |s| && !IsSpace(s[0]) && !IsSpace(s[k])
    ensures |Strip(s)| > k && Strip(s)[..k + 1] == s[..k + 1]
  {
    assert StripLeft(s) == s;
    var r := StripRight(s);
    assert |r| > k;
  }

  /** `s.split(',')[0]`: the bytes before the first comma, or all of `s`. */
  function FirstField(s: seq<byte>): (r: seq<byte>)
    ensures |r| <= |s| && r == s[..|r|]
    ensures COMMA !in r
    ensures |r| < |s| ==> s[|r|] == COMMA
  {
    if s == [] || s[0] == COMMA then [] else [s[0]] + FirstField(s[1..])
  }

  /** The first field of a line that begins with `p` and a comma is `p`. */
  lemma FirstFieldBeforeComma(s: seq<byte>, p: seq<byte>)
    requires |p| < |s| && s[..|p| + 1] == p + [COMMA] && COMMA !in p
    ensures FirstField(s) == p
  {
    var r := FirstField(s);
    assert |r| == |p|;
    assert p == s[..|p| + 1][..|p|] == s[..|p|];
  }

  /** `str.lower()` on one byte: ASCII capitals to small letters. No other
      character lower-cases to one of the letters the header test compares
      with, so this is exact for that test. */
  function LowerByte(b: byte): (r: byte)
    ensures !(65 <= r <= 90)
    ensures r == b || (65 <= b <= 90 && r == b + 32)
  {
    if 65 <= b <= 90 then b + 32 else b
  }

  /** `str.lower()`, byte by byte. */
  function Lower(s: seq<byte>): (r: seq<byte>)
    ensures |r| == |s|
    ensures forall i :: 0 <= i < |s| ==> r[i] == LowerByte(s[i])
  {
    seq(|s|, i requires 0 <= i < |s| => LowerByte(s[i]))
  }

  predicate NoNewline(fields: seq<seq<byte>>)
  {
    forall i :: 0 <= i < |fields| ==> NL !in fields[i]
  }

  /** The bytes `,f1,f2,...` that `to_csv` writes after the first field of a
      line. */
  function CsvTail(fields: seq<seq<byte>>): (r: seq<byte>)
    ensures fields != [] ==> |r| > 0 && r[0] == COMMA
    ensures NoNewline(fields) ==> NL !in r
  {
    if fields == [] then [] else [COMMA] + fields[0] + CsvTail(fields[1..])
  }
}
