/** The voice-note recorder component: the `formatTime` display of the
    elapsed seconds, and the recorder state the start, data, tick and
    stop handlers move through. The browser's media recorder, the
    microphone stream and the interval timer are outside the model; their
    events are the inputs of these functions. */
module AudioRecorder {
  import opened Options
  import opened Strings

  /** `x.toString().padStart(2, "0")`. */
  function TwoDigits(n: nat): string {
    PadStart(NatToString(n), 2, '0')
  }

  /** Where the colon and the two fields sit in "<mm>:<ss>" when the
      seconds field has two characters. */
  lemma {:induction false} ColonLayout(mm: string, ss: string)
    requires |ss| == 2
    ensures var r := mm + ":" + ss;
            && |r| == |mm| + 3 && r[|r| - 3] == ':'
            && r[..|r| - 3] == mm && r[|r| - 2..] == ss
  {
    var r := mm + ":" + ss;
    assert r[..|r| - 3] == mm;
  }

  /** "<minutes>:<seconds>", each field padded to at least two digits. */
  function Clock(minutes: nat, rest: nat): (r: string)
    requires rest < 60
    ensures |r| == |TwoDigits(minutes)| + 3 && r[|r| - 3] == ':'
    ensures |r| >= 5 && (minutes < 100 ==> |r| == 5)
  {
    TwoDigitsDenotes(minutes);
    TwoDigitsDenotes(rest);
    ColonLayout(TwoDigits(minutes), TwoDigits(rest));
    TwoDigits(minutes) + ":" + TwoDigits(rest)
  }

  /** `formatTime(seconds)`: whole minutes, a colon, and the remaining
      seconds, each padded to at least two digits. What the two fields
      denote is stated by `FormatTimeFields` and `FormatTimeRoundTrip`. */
  function FormatTime(seconds: nat): (r: string)
    ensures |r| >= 5 && r[|r| - 3] == ':'
    ensures seconds < 6000 ==> |r| == 5 && r[2] == ':'
  {
    MinutesBelowHundred(seconds);
    Clock(seconds / 60, seconds % 60)
  }

  lemma {:induction false} MinutesBelowHundred(seconds: nat)
    ensures seconds < 6000 ==> seconds / 60 < 100
    ensures seconds % 60 < 60
  {
  }

  /** In "<minutes>:<seconds>" the digits before the colon denote the
      minutes and the two after it the seconds. */
  lemma {:induction false} ClockFields(minutes: nat, rest: nat, r: string)
    requires rest < 60 && r == Clock(minutes, rest)
    ensures |r| >= 5
    ensures AllDigits(r[..|r| - 3]) && ParseNat(r[..|r| - 3]) == minutes
    ensures AllDigits(r[|r| - 2..]) && ParseNat(r[|r| - 2..]) == rest
  {
    TwoDigitsDenotes(minutes);
    TwoDigitsDenotes(rest);
    SplitFields(TwoDigits(minutes), TwoDigits(rest), minutes, rest, r);
  }

  /** The two fields of "<mm>:<ss>" for digit strings denoting `minutes`
      and `rest`, the second of them two characters long. */
  lemma {:induction false} SplitFields(mm: string, ss: string, minutes: nat, rest: nat, r: string)
    requires r == mm + ":" + ss && |ss| == 2
    requires AllDigits(mm) && AllDigits(ss) && ParseNat(mm) == minutes && ParseNat(ss) == rest
    ensures |r| == |mm| + 3
    ensures AllDigits(r[..|r| - 3]) && ParseNat(r[..|r| - 3]) == minutes
    ensures AllDigits(r[|r| - 2..]) && ParseNat(r[|r| - 2..]) == rest
  {
    ColonLayout(mm, ss);
  }

  /** The digits before the colon of `r == formatTime(seconds)` denote
      the whole minutes and the two after it the remaining seconds. */
  lemma {:induction false} FormatTimeFields(seconds: nat, r: string)
    requires r == FormatTime(seconds)
    ensures |r| >= 5
    ensures AllDigits(r[..|r| - 3]) && ParseNat(r[..|r| - 3]) == seconds / 60
    ensures AllDigits(r[|r| - 2..]) && ParseNat(r[|r| - 2..]) == seconds % 60
  {
    MinutesBelowHundred(seconds);
    ClockFields(seconds / 60, seconds % 60, r);
  }

  /** Reads an "MM:SS" display back as a number of seconds: exactly one
      colon, digits on both sides. */
  function ReadTime(s: string): Option<nat> {
    var parts := Split(s, ':');
    if |parts| == 2 && |parts[0]| > 0 && |parts[1]| > 0 && AllDigits(parts[0]) && AllDigits(parts[1])
    then Some(ParseNat(parts[0]) * 60 + ParseNat(parts[1]))
    else None
  }

  lemma {:induction false} ParseNatZeroPadded(k: nat, s: string)
    requires AllDigits(s)
    ensures AllDigits(Repeat('0', k) + s)
    ensures ParseNat(Repeat('0', k) + s) == ParseNat(s)
    decreases k
  {
    if k > 0 {
      var t := Repeat('0', k - 1) + s;
      ParseNatZeroPadded(k - 1, s);
      assert Repeat('0', k) == ['0'] + Repeat('0', k - 1);
      assert Repeat('0', k) + s == ['0'] + t;
      ParseNatLeadingZero(t);
      assert ParseNat(['0'] + t) == ParseNat(t) == ParseNat(s);
    } else {
      assert Repeat('0', k) + s == s;
    }
  }

  /** Zero padding keeps the digits and the number they denote, and
      numbers below 100 take exactly two characters. */
  lemma {:induction false} TwoDigitsDenotes(n: nat)
    ensures 2 <= |TwoDigits(n)| && AllDigits(TwoDigits(n))
    ensures n < 100 ==> |TwoDigits(n)| == 2
    ensures ParseNat(TwoDigits(n)) == n
  {
    if n < 100 {
      NatToStringBelowHundred(n);
    }
    var s := NatToString(n);
    ParseNatToString(n);
    if |s| < 2 {
      ParseNatZeroPadded(2 - |s|, s);
    }
  }

  lemma {:induction false} ReadClock(mm: string, ss: string)
    requires |mm| > 0 && |ss| > 0 && AllDigits(mm) && AllDigits(ss)
    ensures ReadTime(mm + ":" + ss) == Some(ParseNat(mm) * 60 + ParseNat(ss))
  {
    assert ':' !in mm by {
      forall i | 0 <= i < |mm|
        ensures mm[i] != ':'
      {
        assert IsDigit(mm[i]);
      }
    }
    assert ':' !in ss by {
      forall i | 0 <= i < |ss|
        ensures ss[i] != ':'
      {
        assert IsDigit(ss[i]);
      }
    }
    assert Join([mm, ss], ':') == mm + ":" + ss;
    SplitJoin([mm, ss], ':');
  }

  /** Reading "<mm>:<ss>" back from two digit strings that denote
      `minutes` and `rest`. */
  lemma {:induction false} ReadFields(mm: string, ss: string, minutes: nat, rest: nat)
    requires |mm| > 0 && |ss| > 0 && AllDigits(mm) && AllDigits(ss)
    requires ParseNat(mm) == minutes && ParseNat(ss) == rest
    ensures ReadTime(mm + ":" + ss) == Some(minutes * 60 + rest)
  {
    ReadClock(mm, ss);
  }

  lemma {:induction false} ClockRoundTrip(minutes: nat, rest: nat)
    requires rest < 60
    ensures ReadTime(Clock(minutes, rest)) == Some(minutes * 60 + rest)
  {
    TwoDigitsDenotes(minutes);
    TwoDigitsDenotes(rest);
    ReadFields(TwoDigits(minutes), TwoDigits(rest), minutes, rest);
  }

  /** Round trip: reading the display back gives the elapsed seconds. */
  lemma {:induction false} FormatTimeRoundTrip(seconds: nat)
    ensures ReadTime(FormatTime(seconds)) == Some(seconds)
  {
    ClockRoundTrip(seconds / 60, seconds % 60);
  }

  /** A recorded data chunk (`event.data`). */
  datatype Blob = Blob(bytes: seq<bv8>)

  /** The recorder reference, `isRecording`, the chunk buffer,
      `recordingTime`, and whether the one-second interval is running. */
  datatype Recorder = Recorder(
    hasRecorder: bool,
    isRecording: bool,
    chunks: seq<Blob>,
    recordingTime: nat,
    timerRunning: bool)

  /** `startRecording`. When the microphone is refused nothing changes.
      `recordingTime` is left as it is. */
  function Start(r: Recorder, micGranted: bool): (s: Recorder)
    ensures micGranted ==> s.hasRecorder && s.isRecording && s.timerRunning && s.chunks == []
    ensures !micGranted ==> s == r
    ensures s.recordingTime == r.recordingTime
  {
    if micGranted then r.(hasRecorder := true, isRecording := true, chunks := [], timerRunning := true)
    else r
  }

  /** `ondataavailable`: only chunks of non-zero size are kept. */
  function OnData(r: Recorder, b: Blob): (s: Recorder)
    ensures |b.bytes| > 0 ==> s.chunks == r.chunks + [b]
    ensures |b.bytes| == 0 ==> s == r
    ensures s.(chunks := r.chunks) == r
  {
    if |b.bytes| > 0 then r.(chunks := r.chunks + [b]) else r
  }

  /** One interval tick. */
  function Tick(r: Recorder): (s: Recorder)
    ensures s.recordingTime == if r.timerRunning then r.recordingTime + 1 else r.recordingTime
    ensures s.(recordingTime := r.recordingTime) == r
  {
    if r.timerRunning then r.(recordingTime := r.recordingTime + 1) else r
  }

  /** `stopRecording`: returns the new state and whether the recorder was
      told to stop. Guarded by a recorder existing and `isRecording`. */
  function Stop(r: Recorder): (res: (Recorder, bool))
    ensures res.1 <==> r.hasRecorder && r.isRecording
    ensures !res.1 ==> res.0 == r
    ensures res.1 ==> !res.0.isRecording && !res.0.timerRunning
    ensures res.0.chunks == r.chunks && res.0.recordingTime == r.recordingTime
  {
    if r.hasRecorder && r.isRecording then (r.(isRecording := false, timerRunning := false), true)
    else (r, false)
  }

  /** Stopping twice is stopping once: the second call is guarded out. */
  lemma StopTwiceIsStopOnce(r: Recorder)
    ensures Stop(Stop(r).0) == (Stop(r).0, false)
  {
  }

  /** The audio the `onstop` handler packs into one blob. */
  function Concat(chunks: seq<Blob>): seq<bv8> {
    if |chunks| == 0 then [] else chunks[0].bytes + Concat(chunks[1..])
  }

  /** Feeding a sequence of data events. */
  function Deliver(r: Recorder, events: seq<Blob>): Recorder
    decreases |events|
  {
    if |events| == 0 then r else Deliver(OnData(r, events[0]), events[1..])
  }

  /** The non-empty chunks of `events`, in order. */
  function NonEmpty(events: seq<Blob>): (r: seq<Blob>)
    ensures forall b :: b in r <==> b in events && |b.bytes| > 0
  {
    if |events| == 0 then []
    else
      assert events == [events[0]] + events[1..];
      (if |events[0].bytes| > 0 then [events[0]] else []) + NonEmpty(events[1..])
  }

  lemma {:induction false} DeliverAppends(r: Recorder, events: seq<Blob>)
    ensures Deliver(r, events).chunks == r.chunks + NonEmpty(events)
    decreases |events|
  {
    if |events| > 0 {
      var head := if |events[0].bytes| > 0 then [events[0]] else [];
      DeliverAppends(OnData(r, events[0]), events[1..]);
      assert OnData(r, events[0]).chunks == r.chunks + head;
      assert NonEmpty(events) == head + NonEmpty(events[1..]);
      assert (r.chunks + head) + NonEmpty(events[1..]) == r.chunks + (head + NonEmpty(events[1..]));
    }
  }

  lemma {:induction false} ConcatAppend(a: seq<Blob>, b: seq<Blob>)
    ensures Concat(a + b) == Concat(a) + Concat(b)
    decreases |a|
  {
    if |a| == 0 {
      assert a + b == b;
    } else {
      assert (a + b)[1..] == a[1..] + b;
      ConcatAppend(a[1..], b);
    }
  }

  lemma {:induction false} ConcatNonEmpty(events: seq<Blob>)
    ensures Concat(NonEmpty(events)) == Concat(events)
    decreases |events|
  {
    if |events| > 0 {
      ConcatNonEmpty(events[1..]);
      ConcatAppend(if |events[0].bytes| > 0 then [events[0]] else [], NonEmpty(events[1..]));
    }
  }

  /** A recording started afresh holds exactly the non-empty chunks that
      arrived since, in arrival order, and their concatenation is all the
      audio that arrived: dropping empty chunks loses nothing. */
  lemma RecordingHoldsArrivals(r: Recorder, events: seq<Blob>)
    ensures Deliver(Start(r, true), events).chunks == NonEmpty(events)
    ensures Concat(Deliver(Start(r, true), events).chunks) == Concat(events)
  {
    DeliverAppends(Start(r, true), events);
    ConcatNonEmpty(events);
  }
}
