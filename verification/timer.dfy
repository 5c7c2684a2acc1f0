/** The scoped timer (`App::Debug::InstrumentationTimer`). Clock readings
    are integer nanoseconds of the steady clock, passed in as inputs, as is
    the id of the thread that stops the timer. The fixed three-decimal
    rendering of the start point as floating-point microseconds is an
    input function `renderStart`. */
module Timer {
  import opened TraceFormat
  import Instrumentor

  datatype InstrumentationTimer = InstrumentationTimer(name: string, startNs: int, stopped: bool)

  /** What the timer observes when it stops: `steady_clock::now()` and
      `std::this_thread::get_id()`. */
  datatype Reading = Reading(nowNs: int, threadId: string)

  /** The constructor: captures the start point; not yet stopped. */
  function Start(name: string, nowNs: int): InstrumentationTimer {
    InstrumentationTimer(name, nowNs, false)
  }

  /** `time_point_cast<microseconds>` on a nanosecond time point, which
      truncates toward zero. */
  function TruncMicros(ns: int): (us: int)
    ensures 0 <= ns ==> 0 <= us && 0 <= ns - 1000 * us < 1000
    ensures ns < 0 ==> us <= 0 && -1000 < ns - 1000 * us <= 0
  {
    if 0 <= ns then ns / 1000 else -((-ns) / 1000)
  }

  /** The elapsed time `Stop` computes: the difference of the two
      truncated microsecond time points. */
  function ElapsedMicros(startNs: int, endNs: int): int {
    TruncMicros(endNs) - TruncMicros(startNs)
  }

  /** Truncation is monotonic, so a steady clock never yields a negative
      duration. */
  lemma ElapsedNonNegative(startNs: int, endNs: int)
    requires startNs <= endNs
    ensures 0 <= ElapsedMicros(startNs, endNs)
  {
    if 0 <= startNs {
      assert 1000 * TruncMicros(startNs) <= startNs <= endNs < 1000 * TruncMicros(endNs) + 1000;
    } else if endNs < 0 {
      assert 1000 * TruncMicros(startNs) - 1000 < startNs <= endNs <= 1000 * TruncMicros(endNs);
    }
  }

  /** The reported duration is within one microsecond of the true one when
      both points lie on the same side of the clock's epoch, and within two
      otherwise. */
  lemma ElapsedApproximates(startNs: int, endNs: int)
    ensures -2000 < (endNs - startNs) - 1000 * ElapsedMicros(startNs, endNs) < 2000
    ensures (0 <= startNs && 0 <= endNs) || (startNs < 0 && endNs < 0) ==>
      -1000 < (endNs - startNs) - 1000 * ElapsedMicros(startNs, endNs) < 1000
  {
  }

  /** The record `Stop` submits. */
  function Record(t: InstrumentationTimer, at: Reading, renderStart: int -> string): (p: ProfileResult)
    ensures p.name == t.name && p.threadId == at.threadId && p.start == renderStart(t.startNs)
    ensures p.elapsedMicros == TruncMicros(at.nowNs) - TruncMicros(t.startNs)
    ensures t.startNs <= at.nowNs ==> 0 <= p.elapsedMicros
  {
    var p := ProfileResult(t.name, renderStart(t.startNs), ElapsedMicros(t.startNs, at.nowNs), at.threadId);
    assert t.startNs <= at.nowNs ==> 0 <= p.elapsedMicros by {
      if t.startNs <= at.nowNs {
        ElapsedNonNegative(t.startNs, at.nowNs);
      }
    }
    p
  }

  /** `Stop`: submits a record whatever the stopped flag says, then sets it. */
  function Stop(t: InstrumentationTimer, r: Instrumentor.Recorder, at: Reading, renderStart: int -> string)
    : (result: (InstrumentationTimer, Instrumentor.Recorder))
    ensures result.0.stopped && result.0.name == t.name && result.0.startNs == t.startNs
    ensures result.1 == Instrumentor.Replay(r, [Instrumentor.Write(Record(t, at, renderStart))])
  {
    (t.(stopped := true), Instrumentor.WriteProfile(r, Record(t, at, renderStart)))
  }

  /** The destructor: calls `Stop` only when the timer was not stopped. */
  function Destroy(t: InstrumentationTimer, r: Instrumentor.Recorder, at: Reading, renderStart: int -> string)
    : (r': Instrumentor.Recorder)
    ensures t.stopped ==> r' == r
    ensures !t.stopped ==> r' == Instrumentor.Replay(r, [Instrumentor.Write(Record(t, at, renderStart))])
  {
    if t.stopped then r else Stop(t, r, at, renderStart).1
  }

  /** A timer's whole life as seen by the recorder: one explicit `Stop`
      per reading in `stops`, then destruction at `end`. */
  function Life(t: InstrumentationTimer, r: Instrumentor.Recorder, stops: seq<Reading>, end: Reading, renderStart: int -> string)
    : Instrumentor.Recorder
    decreases |stops|
  {
    if |stops| == 0 then Destroy(t, r, end, renderStart)
    else
      var (t', r') := Stop(t, r, stops[0], renderStart);
      Life(t', r', stops[1..], end, renderStart)
  }

  /** The records a timer submits over that life: one per explicit stop,
      and one from the destructor exactly when no stop came before it. */
  function Submitted(t: InstrumentationTimer, stops: seq<Reading>, end: Reading, renderStart: int -> string)
    : (ps: seq<ProfileResult>)
    ensures |ps| == if |stops| == 0 && !t.stopped then 1 else |stops|
    ensures forall i :: 0 <= i < |stops| ==> ps[i] == Record(t, stops[i], renderStart)
    ensures |stops| == 0 && !t.stopped ==> ps == [Record(t, end, renderStart)]
    decreases |stops|
  {
    if |stops| == 0 then (if t.stopped then [] else [Record(t, end, renderStart)])
    else [Record(t, stops[0], renderStart)] + Submitted(t.(stopped := true), stops[1..], end, renderStart)
  }

  /** The life of a timer has the same effect on the recorder as the
      `WriteProfile` calls of exactly the submitted records, in order. */
  lemma {:induction false} LifeWritesSubmitted(t: InstrumentationTimer, r: Instrumentor.Recorder, stops: seq<Reading>, end: Reading, renderStart: int -> string)
    ensures Life(t, r, stops, end, renderStart)
         == Instrumentor.Replay(r, Instrumentor.Writes(Submitted(t, stops, end, renderStart)))
    decreases |stops|
  {
    var ps := Submitted(t, stops, end, renderStart);
    if |stops| == 0 {
      if t.stopped {
        assert Instrumentor.Writes(ps) == [];
      } else {
        assert Instrumentor.Writes(ps) == [Instrumentor.Write(Record(t, end, renderStart))];
      }
    } else {
      var t' := t.(stopped := true);
      var first := Record(t, stops[0], renderStart);
      var r' := Instrumentor.WriteProfile(r, first);
      LifeWritesSubmitted(t', r', stops[1..], end, renderStart);
      assert Instrumentor.Writes(ps)[1..] == Instrumentor.Writes(Submitted(t', stops[1..], end, renderStart));
      assert Instrumentor.Writes(ps)[0] == Instrumentor.Write(first);
    }
  }

  /** While a session records, a timer's life appends the fragments of
      exactly its submitted records to the session's file. */
  lemma LifeAppends(t: InstrumentationTimer, r: Instrumentor.Recorder, stops: seq<Reading>, end: Reading, renderStart: int -> string)
    requires Instrumentor.Recording(r) && r.stream.path in r.files
    ensures Life(t, r, stops, end, renderStart).files
         == r.files[r.stream.path := r.files[r.stream.path] + Fragments(Submitted(t, stops, end, renderStart))]
    ensures Life(t, r, stops, end, renderStart).stream == r.stream
  {
    LifeWritesSubmitted(t, r, stops, end, renderStart);
    Instrumentor.WritesAppend(r, Submitted(t, stops, end, renderStart));
  }

  /** "Destroy only" and "stop then destroy" each submit exactly one
      record; two explicit stops submit two. */
  lemma RecordsPerScope(name: string, startNs: int, a: Reading, b: Reading, renderStart: int -> string)
    ensures var t := Start(name, startNs);
      && Submitted(t, [], a, renderStart) == [Record(t, a, renderStart)]
      && Submitted(t, [a], b, renderStart) == [Record(t, a, renderStart)]
      && Submitted(t, [a, b], b, renderStart) == [Record(t, a, renderStart), Record(t, b, renderStart)]
  {
  }
}
