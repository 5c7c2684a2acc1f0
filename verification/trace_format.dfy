/** The trace file's wire format: the header written when a session opens,
    the comma-prefixed record fragment built for each completed span, and
    the footer written when a session ends. The decoder at the end reads a
    fragment back into its fields; it exists to state that the fragment's
    layout is unambiguous. */
module TraceFormat {
  import opened Options
  import Decimal

  const Header: string := "{\"otherData\": {},\"traceEvents\":[{}"
  const Footer: string := "]}"

  /** One completed span as the timer hands it over. `start` is the start
      time point already rendered as fixed three-decimal microseconds;
      `elapsedMicros` is the integral microsecond count; `threadId` is the
      rendering of the submitting thread's id. */
  datatype ProfileResult = ProfileResult(name: string, start: string, elapsedMicros: int, threadId: string)

  /** The name as it is serialised: every double quote is replaced by a
      single quote, and nothing else is escaped. */
  function SanitiseName(s: string): (r: string)
    ensures |r| == |s|
    ensures forall i :: 0 <= i < |s| ==> r[i] == (if s[i] == '"' then '\'' else s[i])
    ensures '"' !in r
  {
    if |s| == 0 then []
    else [if s[0] == '"' then '\'' else s[0]] + SanitiseName(s[1..])
  }

  lemma SanitiseIdempotent(s: string)
    ensures SanitiseName(SanitiseName(s)) == SanitiseName(s)
  {
    var once := SanitiseName(s);
    assert forall i :: 0 <= i < |once| ==> SanitiseName(once)[i] == once[i];
  }

  lemma SanitiseKeepsQuoteFree(s: string)
    requires '"' !in s
    ensures SanitiseName(s) == s
  {
    assert forall i :: 0 <= i < |s| ==> SanitiseName(s)[i] == s[i];
  }

  // The constant pieces of a fragment, in key order.
  const DurKey: string := ",{\"cat\":\"function\",\"dur\":"
  const NameKey: string := "\"name\":\""
  const TidKey: string := ",\"ph\":\"X\",\"pid\":0,\"tid\":\""
  const TsKey: string := ",\"ts\":"

  /** The record fragment appended to the trace for one span:
      `,{"cat":"function","dur":D,"name":"N","ph":"X","pid":0,"tid":"T","ts":S}`. */
  function Fragment(p: ProfileResult): string {
    DurKey + Decimal.IntToString(p.elapsedMicros) + [','] + NameTail(p)
  }

  function NameTail(p: ProfileResult): string {
    NameKey + SanitiseName(p.name) + ['"'] + TidTail(p)
  }

  function TidTail(p: ProfileResult): string {
    TidKey + p.threadId + ['"'] + TsTail(p)
  }

  function TsTail(p: ProfileResult): string {
    TsKey + p.start + ['}']
  }

  /** The fragments of `ps` concatenated in order. */
  function Fragments(ps: seq<ProfileResult>): string
    decreases |ps|
  {
    if |ps| == 0 then [] else Fragment(ps[0]) + Fragments(ps[1..])
  }

  lemma {:induction false} FragmentsSnoc(ps: seq<ProfileResult>, p: ProfileResult)
    ensures Fragments(ps + [p]) == Fragments(ps) + Fragment(p)
    decreases |ps|
  {
    if |ps| == 0 {
      assert ps + [p] == [p];
    } else {
      assert (ps + [p])[1..] == ps[1..] + [p];
      FragmentsSnoc(ps[1..], p);
    }
  }

  // ---------------------------------------------------------------------
  // Reading a fragment back.

  datatype Fields = Fields(dur: int, name: string, threadId: string, ts: string)

  function StripPrefix(s: string, prefix: string): (r: Option<string>)
    ensures r.Some? <==> prefix <= s
    ensures r.Some? ==> s == prefix + r.value
  {
    if prefix <= s then Some(s[|prefix|..]) else None
  }

  /** Splits `s` at the first occurrence of `c`, dropping that `c`. */
  function SplitAt(s: string, c: char): (r: Option<(string, string)>)
    ensures r.Some? <==> c in s
    ensures r.Some? ==> c !in r.value.0 && s == r.value.0 + [c] + r.value.1
    decreases |s|
  {
    if |s| == 0 then None
    else if s[0] == c then Some(([], s[1..]))
    else
      match SplitAt(s[1..], c)
      case None => None
      case Some((a, b)) => Some(([s[0]] + a, b))
  }

  function DecodeFragment(s: string): Option<Fields> {
    var afterDurKey :- StripPrefix(s, DurKey);
    DecodeDur(afterDurKey)
  }

  function DecodeDur(s: string): Option<Fields> {
    var dur :- SplitAt(s, ',');
    var durValue :- Decimal.ParseInt(dur.0);
    DecodeName(durValue, dur.1)
  }

  function DecodeName(dur: int, s: string): Option<Fields> {
    var afterNameKey :- StripPrefix(s, NameKey);
    var name :- SplitAt(afterNameKey, '"');
    DecodeTid(dur, name.0, name.1)
  }

  function DecodeTid(dur: int, name: string, s: string): Option<Fields> {
    var afterTidKey :- StripPrefix(s, TidKey);
    var tid :- SplitAt(afterTidKey, '"');
    DecodeTs(dur, name, tid.0, tid.1)
  }

  function DecodeTs(dur: int, name: string, threadId: string, s: string): Option<Fields> {
    var afterTsKey :- StripPrefix(s, TsKey);
    if 0 < |afterTsKey| && afterTsKey[|afterTsKey| - 1] == '}' then
      Some(Fields(dur, name, threadId, afterTsKey[..|afterTsKey| - 1]))
    else
      None
  }

  lemma {:induction false} SplitAtFirst(x: string, c: char, y: string)
    requires c !in x
    ensures SplitAt(x + [c] + y, c) == Some((x, y))
    decreases |x|
  {
    var s := x + [c] + y;
    if |x| == 0 {
      assert s == [c] + y;
      assert s[1..] == y;
    } else {
      assert s[1..] == x[1..] + [c] + y;
      SplitAtFirst(x[1..], c, y);
      assert [s[0]] + x[1..] == x;
    }
  }

  lemma StripPrefixOf(prefix: string, rest: string)
    ensures StripPrefix(prefix + rest, prefix) == Some(rest)
  {
    assert (prefix + rest)[|prefix|..] == rest;
  }

  /** Splits `prefix + x + [c] + y` into its parts. */
  lemma Unframe(prefix: string, x: string, c: char, y: string)
    requires c !in x
    ensures StripPrefix(prefix + x + [c] + y, prefix) == Some(x + [c] + y)
    ensures SplitAt(x + [c] + y, c) == Some((x, y))
  {
    assert prefix + x + [c] + y == prefix + (x + [c] + y);
    StripPrefixOf(prefix, x + [c] + y);
    SplitAtFirst(x, c, y);
  }

  lemma DecodeTsOf(dur: int, name: string, threadId: string, p: ProfileResult)
    ensures DecodeTs(dur, name, threadId, TsTail(p)) == Some(Fields(dur, name, threadId, p.start))
  {
    assert TsTail(p) == TsKey + (p.start + ['}']);
    StripPrefixOf(TsKey, p.start + ['}']);
    assert (p.start + ['}'])[..|p.start|] == p.start;
  }

  lemma DecodeTidOf(dur: int, name: string, p: ProfileResult)
    requires '"' !in p.threadId
    ensures DecodeTid(dur, name, TidTail(p)) == Some(Fields(dur, name, p.threadId, p.start))
  {
    Unframe(TidKey, p.threadId, '"', TsTail(p));
    DecodeTsOf(dur, name, p.threadId, p);
  }

  lemma DecodeNameOf(dur: int, p: ProfileResult)
    requires '"' !in p.threadId
    ensures DecodeName(dur, NameTail(p)) == Some(Fields(dur, SanitiseName(p.name), p.threadId, p.start))
  {
    Unframe(NameKey, SanitiseName(p.name), '"', TidTail(p));
    DecodeTidOf(dur, SanitiseName(p.name), p);
  }

  /** A fragment decodes to the record's duration, sanitised name, thread
      id and start text, provided the thread id contains no double quote
      (the rendering of a `std::thread::id` is a number). */
  lemma FragmentRoundTrip(p: ProfileResult)
    requires '"' !in p.threadId
    ensures DecodeFragment(Fragment(p)) == Some(Fields(p.elapsedMicros, SanitiseName(p.name), p.threadId, p.start))
  {
    var d := Decimal.IntToString(p.elapsedMicros);
    assert ',' !in d;
    Unframe(DurKey, d, ',', NameTail(p));
    Decimal.IntRoundTrip(p.elapsedMicros);
    DecodeNameOf(p.elapsedMicros, p);
  }
}
