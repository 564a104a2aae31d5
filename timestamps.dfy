/**
  Timestamps as pandas handles them, at one-second resolution, in seconds
  since 1970-01-01T00:00. Asia/Kolkata is the fixed offset +05:30, which it
  has kept, without daylight saving time, since 1945.
*/
module Timestamps {
  import opened Wrappers
  import opened CsvBytes

  const SECONDS_PER_DAY: int := 86400
  const UTC_OFFSET: int := 0
  const KOLKATA_OFFSET: int := 19800

  /** A naive stamp is a wall-clock reading with no zone; an aware stamp is an
      instant together with the UTC offset it is displayed in. */
  datatype Stamp = Naive(wall: int) | Aware(instant: int, offset: int)

  /** The wall-clock reading a stamp displays. */
  function WallClock(s: Stamp): int
  {
    match s
    case Naive(w) => w
    case Aware(i, o) => i + o
  }

  /** `tz_localize`: attach a zone to a naive stamp, keeping its wall clock. */
  function Localize(s: Stamp, offset: int): (r: Stamp)
    requires s.Naive?
    ensures r.Aware? && r.offset == offset && WallClock(r) == s.wall
  {
    Aware(s.wall - offset, offset)
  }

  /** `tz_convert` and `astimezone`: display an aware stamp in another zone,
      keeping the instant it denotes. */
  function Convert(s: Stamp, offset: int): (r: Stamp)
    requires s.Aware?
    ensures r.Aware? && r.offset == offset && r.instant == s.instant
    ensures WallClock(r) - WallClock(s) == offset - s.offset
  {
    Aware(s.instant, offset)
  }

  /** `.date()`: the day, counted from 1970-01-01, that the wall clock shows. */
  function LocalDate(s: Stamp): (d: int)
    ensures d * SECONDS_PER_DAY <= WallClock(s) < (d + 1) * SECONDS_PER_DAY
  {
    WallClock(s) / SECONDS_PER_DAY
  }

  predicate IsDigit(b: byte)
  {
    48 <= b <= 57
  }

  /** How `to_csv` renders an index instant (shown in Asia/Kolkata) as the
      first field of a line, and how `pd.to_datetime` parses such a field. */
  datatype Codec = Codec(render: int -> seq<byte>, parse: seq<byte> -> Option<Stamp>)

  /** The shape of a rendered timestamp: it starts with the year's first digit
      and holds neither a comma nor a newline. */
  predicate WellRendered(s: seq<byte>)
  {
    |s| > 0 && IsDigit(s[0]) && COMMA !in s && NL !in s
  }

  /** What the model assumes of pandas: every rendering is well shaped, and
      parsing it gives back the same instant, aware, at +05:30. */
  ghost predicate ValidCodec(c: Codec)
  {
    forall t :: WellRendered(c.render(t)) && c.parse(c.render(t)) == Some(Aware(t, KOLKATA_OFFSET))
  }

  /** A codec that meets `ValidCodec`, so the lemmas that assume it are not
      vacuous. It writes an instant as the digit `0` followed by one `1` per
      second after the epoch, or one `2` per second before it, and reads a
      field back by counting. */
  function UnaryRender(t: int): seq<byte>
  {
    [48] + Run(if t >= 0 then t else -t, if t >= 0 then 49 else 50)
  }

  function Run(n: nat, b: byte): (r: seq<byte>)
    ensures |r| == n && forall i :: 0 <= i < n ==> r[i] == b
  {
    if n == 0 then [] else [b] + Run(n - 1, b)
  }

  function Tally(s: seq<byte>): int
  {
    if s == [] then 0
    else (if s[0] == 49 then 1 else if s[0] == 50 then -1 else 0) + Tally(s[1..])
  }

  function UnaryParse(s: seq<byte>): Option<Stamp>
  {
    Some(Aware(Tally(s), KOLKATA_OFFSET))
  }

  lemma {:induction false} TallyOfRun(n: nat, b: byte)
    requires b == 49 || b == 50
    ensures Tally(Run(n, b)) == if b == 49 then n as int else -(n as int)
  {
    if n > 0 {
      assert Run(n, b)[1..] == Run(n - 1, b);
      TallyOfRun(n - 1, b);
    }
  }

  lemma ValidCodecSatisfiable()
    ensures ValidCodec(Codec(UnaryRender, UnaryParse))
  {
    forall t: int
      ensures WellRendered(UnaryRender(t))
      ensures UnaryParse(UnaryRender(t)) == Some(Aware(t, KOLKATA_OFFSET))
    {
      var n: nat := if t >= 0 then t else -t;
      var b: byte := if t >= 0 then 49 else 50;
      var f := UnaryRender(t);
      assert f[1..] == Run(n, b);
      TallyOfRun(n, b);
    }
  }
}
