/**
 * The device list's "last ping" cell: how long ago a device last called in, as a short label
 * and a colour that grows more alarming with the age.
 */
module LastPing {

  import Wrappers
  import opened Decimal
  import Elapsed

  /** The badge variants the cell can take. */
  datatype Color = Default | Secondary | Destructive | Outline | Success | Warning

  /** A device that never called in, or the label and colour of its last call. */
  datatype Cell = Never | Ping(text: string, color: Color)

  /** The label of a span, as the cell writes it: "s" directly after the number, else a space. */
  function LabelSuffix(u: Elapsed.Unit): string {
    match u
    case Seconds => "s"
    case Minutes => " min"
    case Hours => " h"
    case Days => " d"
  }

  function LabelText(e: Elapsed.Elapsed): string {
    IntToString(e.amount) + LabelSuffix(e.unit)
  }

  /**
   * The reference colour of a span of `sec` seconds: fresh below five minutes, stale below
   * half an hour, late below a day, and old beyond.
   */
  function Urgency(sec: int): Color {
    if sec < 300 then Success
    else if sec < 1800 then Warning
    else if sec < 86400 then Destructive
    else Secondary
  }

  /** Colours ordered from least to most alarming, an old device being the quietest. */
  function Alarm(c: Color): nat {
    match c
    case Success => 0
    case Warning => 1
    case Destructive => 2
    case Secondary => 3
    case _ => 4
  }

  /**
   * The cell for a device whose last call was at `lastRequest` (milliseconds; `None` for never),
   * seen at time `now`: the bucket label and the urgency of the whole seconds since the call.
   */
  function CellOf(lastRequest: Wrappers.Option<int>, now: int): Cell {
    if lastRequest.None? then Never
    else
      var sec := (now - lastRequest.value) / 1000;
      Ping(LabelText(Elapsed.Bucket(sec)), Urgency(sec))
  }

  /**
   * The cell as the dashboard computes it: successive floor divisions, an if-chain assigning the
   * label, and one assigning the colour over its default.
   */
  method LastPingCell(lastRequest: Wrappers.Option<int>, now: int) returns (cell: Cell)
    ensures cell == CellOf(lastRequest, now)
  {
    if lastRequest.None? {
      return Never;
    }
    var diffMs := now - lastRequest.value;
    var diffSec := diffMs / 1000;
    var diffMin := diffSec / 60;
    var diffHrs := diffMin / 60;
    var diffDays := diffHrs / 24;
    Elapsed.SuccessiveFloorsBucket(diffSec);
    Elapsed.SuccessiveFloors(diffSec);

    var text: string;
    if diffSec < 60 {
      text := IntToString(diffSec) + "s";
    } else if diffMin < 60 {
      text := IntToString(diffMin) + " min";
    } else if diffHrs < 24 {
      text := IntToString(diffHrs) + " h";
    } else {
      text := IntToString(diffDays) + " d";
    }

    var color := Default;
    if diffMin < 5 {
      color := Success;
    } else if diffMin < 30 {
      color := Warning;
    } else if diffHrs < 24 {
      color := Destructive;
    } else {
      color := Secondary;
    }
    return Ping(text, color);
  }

  /** Only a device that never called in shows "Never"; no time of a call does. */
  lemma NeverIffNoRequest(lastRequest: Wrappers.Option<int>, now: int)
    ensures CellOf(lastRequest, now) == Never <==> lastRequest.None?
    ensures CellOf(lastRequest, now).Ping? ==> CellOf(lastRequest, now).color != Default
  {
  }

  /** Four minutes is fresh, ten stale, two hours late and three days old. */
  lemma UrgencyExamples(now: int)
    ensures CellOf(Wrappers.Some(now - 4 * 60_000), now).color == Success
    ensures CellOf(Wrappers.Some(now - 10 * 60_000), now).color == Warning
    ensures CellOf(Wrappers.Some(now - 2 * 3_600_000), now).color == Destructive
    ensures CellOf(Wrappers.Some(now - 3 * 86_400_000), now).color == Secondary
  {
  }

  /** The longer ago the last call, the more alarming (or older) the colour. */
  lemma UrgencyMonotone(s: int, t: int)
    requires s <= t
    ensures Alarm(Urgency(s)) <= Alarm(Urgency(t))
  {
  }

  /**
   * The colour matches the label's unit: the old colour appears exactly with a label in days,
   * and the fresh and stale colours only with a label in seconds or minutes.
   */
  lemma ColorMatchesUnit(sec: int)
    ensures Urgency(sec) == Secondary <==> Elapsed.Bucket(sec).unit == Elapsed.Days
    ensures Urgency(sec) == Success || Urgency(sec) == Warning ==>
      Elapsed.Bucket(sec).unit == Elapsed.Seconds || Elapsed.Bucket(sec).unit == Elapsed.Minutes
  {
  }

  /**
   * A call stamped in the future is not clamped: the label is the negative number of seconds
   * and the colour is the fresh one.
   */
  lemma FutureRequest(lastRequest: int, now: int)
    requires lastRequest > now
    ensures var sec := (now - lastRequest) / 1000;
      && sec < 0
      && CellOf(Wrappers.Some(lastRequest), now) == Ping(IntToString(sec) + "s", Success)
      && CellOf(Wrappers.Some(lastRequest), now).text[0] == '-'
  {
  }

  /** The label determines the amount and the unit it was printed from. */
  lemma LabelTextInjective(e: Elapsed.Elapsed, f: Elapsed.Elapsed)
    requires LabelText(e) == LabelText(f)
    ensures e == f
  {
    NumberPrefixFree(e.amount, f.amount, LabelSuffix(e.unit), LabelSuffix(f.unit));
  }
}
