/**
  The call screen of src/components/chat/CallInterface.tsx: the running
  duration, its `MM:SS` rendering and the status line.
 */
module Call {

  import opened Basics
  import opened Text

  datatype CallStatus = Connecting | Connected | Ended

  /** The part of the screen's state that matters here: the call status and the seconds counted. */
  datatype CallView = CallView(status: CallStatus, duration: nat)

  /** One tick of the one-second interval, which only runs while connected. */
  function Tick(v: CallView): (r: CallView)
    ensures r.status == v.status
    ensures r.duration == if v.status == Connected then v.duration + 1 else v.duration
  {
    if v.status == Connected then v.(duration := v.duration + 1) else v
  }

  function Ticks(v: CallView, n: nat): CallView {
    if n == 0 then v else Tick(Ticks(v, n - 1))
  }

  /** `n` ticks add `n` seconds to a connected call and nothing otherwise. */
  lemma {:induction false} TicksCount(v: CallView, n: nat)
    ensures Ticks(v, n).status == v.status
    ensures Ticks(v, n).duration == v.duration + (if v.status == Connected then n else 0)
  {
    if n > 0 {
      TicksCount(v, n - 1);
    }
  }

  /** `formatDuration`: minutes and seconds, each padded with '0' to two digits. */
  function FormatDuration(seconds: nat): (r: string)
    ensures |r| >= 5 && r[|r| - 3] == ':'
    ensures r[..|r| - 3] == PadStart(NatToString(seconds / 60), 2, '0')
    ensures r[|r| - 2..] == PadStart(NatToString(seconds % 60), 2, '0')
    ensures seconds < 6000 <==> |r| == 5
  {
    var mins := PadStart(NatToString(seconds / 60), 2, '0');
    var secs := PadStart(NatToString(seconds % 60), 2, '0');
    assert |secs| == 2;
    var r := mins + [':'] + secs;
    assert r[..|r| - 3] == mins;
    assert r[|r| - 2..] == secs;
    r
  }

  /** The two fields read back as minutes and seconds, and recombine to the input. */
  lemma FormatDurationRoundTrip(seconds: nat)
    ensures ReadsAsClock(FormatDuration(seconds), seconds)
  {
    var t := FormatDuration(seconds);
    FieldsRecombine(t[..|t| - 3], t[|t| - 2..], seconds);
  }

  lemma FieldsRecombine(mins: string, secs: string, seconds: nat)
    requires mins == PadStart(NatToString(seconds / 60), 2, '0')
    requires secs == PadStart(NatToString(seconds % 60), 2, '0')
    ensures AllDigits(mins) && AllDigits(secs)
    ensures ParseDecimal(secs) < 60 && ParseDecimal(mins) * 60 + ParseDecimal(secs) == seconds
  {
    MinutesSeconds(seconds);
    PaddedReadsBack(mins, seconds / 60, 2);
    PaddedReadsBack(secs, seconds % 60, 2);
  }

  /** `getStatusText`. */
  function StatusText(v: CallView): (r: string)
    ensures v.status == Connecting ==> r == "Connecting..."
    ensures v.status == Ended ==> r == "Call ended"
    ensures v.status == Connected ==> r == FormatDuration(v.duration)
  {
    match v.status
    case Connecting => "Connecting..."
    case Connected => FormatDuration(v.duration)
    case Ended => "Call ended"
  }

  /** The status line tells the three states apart. */
  lemma StatusTextDeterminesStatus(v: CallView, w: CallView)
    requires StatusText(v) == StatusText(w)
    ensures v.status == w.status
  {
    var t := StatusText(v);
    if v.status == Connected {
      assert IsDigit(t[0]) by { ParsePadded(v.duration / 60, 2); assert t[0] == t[..|t| - 3][0]; }
    }
    if w.status == Connected {
      assert IsDigit(t[0]) by { ParsePadded(w.duration / 60, 2); assert t[0] == t[..|t| - 3][0]; }
    }
  }
}
