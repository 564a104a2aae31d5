/**
  `get_last_datetime`: the resume point of a series file, read from its last
  line only, found by scanning backwards from the end of the file.
*/
module LastLine {
  import opened Wrappers
  import opened CsvBytes
  import opened Timestamps

  /** The index of the last newline strictly before `k`, or -1. */
  function LastNewlineBefore(f: seq<byte>, k: nat): (j: int)
    requires k <= |f|
    ensures -1 <= j < k
    ensures 0 <= j ==> f[j] == NL
    ensures forall i :: j < i < k ==> f[i] != NL
  {
    if k == 0 then -1
    else if f[k - 1] == NL then k - 1
    else LastNewlineBefore(f, k - 1)
  }

  /** Where the backward scan leaves the file position: just after the last
      newline that comes before the final byte, or 0 when there is none or the
      file is shorter than two bytes. */
  function LastLineStart(f: seq<byte>): (p: nat)
    ensures p <= |f|
    ensures |f| < 2 ==> p == 0
    ensures 0 < p ==> p < |f| && f[p - 1] == NL
    ensures forall i :: p <= i < |f| - 1 ==> f[i] != NL
  {
    if |f| < 2 then 0 else LastNewlineBefore(f, |f| - 1) + 1
  }

  /** `f.readline()` on a binary file at position `pos`: the bytes up to and
      including the first newline, or up to the end of the file. */
  function ReadLine(f: seq<byte>, pos: nat): (line: seq<byte>)
    requires pos <= |f|
    ensures pos + |line| <= |f| && line == f[pos..pos + |line|]
    ensures forall i :: 0 <= i < |line| - 1 ==> line[i] != NL
    ensures pos + |line| == |f| || (|line| > 0 && line[|line| - 1] == NL)
    decreases |f| - pos
  {
    if pos == |f| then []
    else if f[pos] == NL then [NL]
    else [f[pos]] + ReadLine(f, pos + 1)
  }

  /** The index label `to_csv` writes in a header, compared case-insensitively. */
  const LOWER_DATETIME: seq<byte> := Ascii("datetime")
  const LOWER_DATE: seq<byte> := Ascii("date")

  /** `date_str.lower() == "datetime" or date_str.lower() == "date"`. A header
      name starts with `d` or `D`, so no rendered timestamp is one. */
  predicate IsHeaderName(field: seq<byte>): (b: bool)
    ensures b ==> |field| > 0 && (field[0] == 68 || field[0] == 100)
  {
    Lower(field) == LOWER_DATETIME || Lower(field) == LOWER_DATE
  }

  /** The header test ignores case: two fields that agree byte for byte up to
      case are both header names or neither is. */
  lemma HeaderNameIgnoresCase(f: seq<byte>, g: seq<byte>)
    requires |f| == |g|
    requires forall i :: 0 <= i < |f| ==> LowerByte(f[i]) == LowerByte(g[i])
    ensures IsHeaderName(f) <==> IsHeaderName(g)
  {
    assert Lower(f) == Lower(g);
  }

  /** Every spelling of the two names, whatever its case, is a header name,
      and a field with any other letters is not. */
  lemma HeaderNameSpellings()
    ensures IsHeaderName(Ascii("Datetime")) && IsHeaderName(Ascii("DATETIME"))
    ensures IsHeaderName(Ascii("date")) && IsHeaderName(Ascii("DaTe"))
    ensures !IsHeaderName(Ascii("Dates")) && !IsHeaderName(Ascii("time"))
  {
    assert Lower(Ascii("Datetime")) == LOWER_DATETIME;
    assert Lower(Ascii("DATETIME")) == LOWER_DATETIME;
    assert Lower(Ascii("DaTe")) == LOWER_DATE;
    assert Lower(Ascii("date")) == LOWER_DATE;
    assert Lower(Ascii("time"))[0] != LOWER_DATE[0];
  }

  /** Lines 37-51: classify the line read. */
  function ClassifyLine(line: seq<byte>, parse: seq<byte> -> Option<Stamp>): Option<Stamp>
  {
    var s := Strip(line);
    if |s| == 0 || COMMA !in s then None
    else if IsHeaderName(FirstField(s)) then None
    else parse(FirstField(s))
  }

  /** The resume point of a file: the classification of its last line. */
  function ResumePoint(f: seq<byte>, parse: seq<byte> -> Option<Stamp>): Option<Stamp>
  {
    ClassifyLine(ReadLine(f, LastLineStart(f)), parse)
  }

  /** `get_last_datetime` on an existing file: seek to two bytes before the
      end, step back one byte at a time until a newline has just been read, and
      fall back to position 0 when a seek would go before the start. */
  method GetLastDatetime(f: seq<byte>, parse: seq<byte> -> Option<Stamp>) returns (r: Option<Stamp>)
    ensures r == ResumePoint(f, parse)
  {
    var pos: int;
    if |f| < 2 {
      // f.seek(-2, os.SEEK_END) raises OSError
      pos := 0;
    } else {
      pos := |f| - 2;
      while true
        invariant 0 <= pos <= |f| - 2
        invariant LastNewlineBefore(f, pos + 1) == LastNewlineBefore(f, |f| - 1)
        decreases pos
      {
        var b := f[pos];   // f.read(1)
        pos := pos + 1;
        if b == NL {
          break;
        }
        if pos < 2 {
          // f.seek(-2, os.SEEK_CUR) raises OSError; f.seek(0)
          pos := 0;
          break;
        }
        pos := pos - 2;
      }
    }
    assert pos == LastLineStart(f);
    var line := ReadLine(f, pos);
    r := ClassifyLine(line, parse);
  }

  /** The line read after the scan runs to the end of the file. */
  lemma LastLineIsTail(f: seq<byte>)
    ensures ReadLine(f, LastLineStart(f)) == f[LastLineStart(f)..]
  {
    var p := LastLineStart(f);
    var line := ReadLine(f, p);
  }

  /** A file made of a prefix that ends a line and one more line: the scan
      stops at the start of that line, and it is the line read. */
  lemma LastLineOfAppend(pre: seq<byte>, line: seq<byte>)
    requires pre == [] || pre[|pre| - 1] == NL
    requires |line| > 0 && forall i :: 0 <= i < |line| - 1 ==> line[i] != NL
    ensures LastLineStart(pre + line) == |pre|
    ensures ReadLine(pre + line, |pre|) == line
  {
    var f := pre + line;
    var p := LastLineStart(f);
    LastLineIsTail(f);
    assert f[|pre|..] == line;
  }

  /** The resume point of a file that ends with a complete line after a
      prefix ending a line is the classification of that line alone. */
  lemma ResumeOfAppendedLine(pre: seq<byte>, line: seq<byte>, parse: seq<byte> -> Option<Stamp>)
    requires pre == [] || pre[|pre| - 1] == NL
    requires |line| > 0 && forall i :: 0 <= i < |line| - 1 ==> line[i] != NL
    ensures ResumePoint(pre + line, parse) == ClassifyLine(line, parse)
  {
    LastLineOfAppend(pre, line);
  }

  /** A file whose last two bytes are newlines ends in an empty line, so it
      has no resume point. */
  lemma ResumeOfBlankLastLine(f: seq<byte>, parse: seq<byte> -> Option<Stamp>)
    requires |f| >= 2 && f[|f| - 2] == NL && f[|f| - 1] == NL
    ensures ResumePoint(f, parse) == None
  {
    assert LastLineStart(f) == |f| - 1;
    LastLineIsTail(f);
    assert ReadLine(f, |f| - 1) == [NL];
    assert IsSpace(NL);
  }

  /** An empty file has no resume point. */
  lemma ResumeOfEmptyFile(parse: seq<byte> -> Option<Stamp>)
    ensures ResumePoint([], parse) == None
  {
  }
}
