/** The profiling recorder (`App::Debug::Instrumentor`) as an immutable
    state with one pure transition per public call. Each public call holds
    the recorder's mutex for its state-changing part, so a call is one
    atomic step here; a run of the program is a sequence of calls.

    The state is the nullable session pointer, the output stream and the
    file system the stream writes into (a map from path to contents). */
module Instrumentor {
  import opened Options
  import opened TraceFormat

  type Path = string

  datatype Session = Session(name: string)

  /** The `std::ofstream`. `good` is false once the stream's failbit is set
      while it is open; an insertion into a stream that is closed or not
      good is dropped. */
  datatype Stream = Closed | Open(path: Path, good: bool)

  datatype Recorder = Recorder(session: Option<Session>, stream: Stream, files: map<Path, string>)

  /** The default argument of `BeginSession`'s file path. */
  const DefaultPath: Path := "results.json"

  /** The state the private constructor leaves: no session, stream closed,
      and no file touched yet. */
  const Init: Recorder := Recorder(None, Closed, map[])

  /** Whether an insertion into the stream reaches a file. */
  predicate Accepting(s: Stream) {
    s.Open? && s.good
  }

  /** Whether `WriteProfile` would append its fragment. */
  predicate Recording(r: Recorder) {
    r.session.Some? && Accepting(r.stream)
  }

  /** The invariant every call keeps: an open stream belongs to a session,
      is good, and writes into a file that exists. */
  predicate Valid(r: Recorder) {
    r.stream.Open? ==> r.session.Some? && r.stream.good && r.stream.path in r.files
  }

  function Contents(files: map<Path, string>, p: Path): string {
    if p in files then files[p] else []
  }

  /** Inserting text into the stream and flushing it: the text reaches the
      open file only when the stream accepts insertions. */
  function Insert(r: Recorder, text: string): Recorder {
    if Accepting(r.stream) then
      r.(files := r.files[r.stream.path := Contents(r.files, r.stream.path) + text])
    else
      r
  }

  function WriteHeader(r: Recorder): (r': Recorder)
    ensures r'.session == r.session && r'.stream == r.stream
    ensures Accepting(r.stream) ==> r'.files == r.files[r.stream.path := Contents(r.files, r.stream.path) + Header]
    ensures !Accepting(r.stream) ==> r'.files == r.files
  {
    Insert(r, Header)
  }

  function WriteFooter(r: Recorder): (r': Recorder)
    ensures r'.session == r.session && r'.stream == r.stream
    ensures Accepting(r.stream) ==> r'.files == r.files[r.stream.path := Contents(r.files, r.stream.path) + Footer]
    ensures !Accepting(r.stream) ==> r'.files == r.files
  {
    Insert(r, Footer)
  }

  /** `m_outputStream.open(path)`. Opening a stream that is already open
      fails and sets its failbit. Otherwise `opens` says whether the file
      system lets the path be opened for writing; on success the file is
      created or truncated and the stream is fresh and good. */
  function OpenStream(r: Recorder, path: Path, opens: bool): Recorder {
    if r.stream.Open? then r.(stream := r.stream.(good := false))
    else if opens then r.(stream := Open(path, true), files := r.files[path := []])
    else r
  }

  /** Writes the footer and closes the stream when the session pointer is
      set. It never resets the session pointer. */
  function InternalEndSession(r: Recorder): (r': Recorder)
    ensures r'.session == r.session
    ensures r.session.Some? ==> r'.stream == Closed
    ensures r.session.None? ==> r' == r
    ensures Recording(r) ==> r'.files == r.files[r.stream.path := Contents(r.files, r.stream.path) + Footer]
    ensures !Recording(r) ==> r'.files == r.files
    ensures Valid(r) ==> Valid(r')
  {
    if r.session.Some? then WriteFooter(r).(stream := Closed) else r
  }

  function BeginSession(r: Recorder, name: string, path: Path, opens: bool): (r': Recorder)
    ensures Valid(r) ==> Valid(r')
    // On success the session is replaced, the stream is open on `path`,
    // and the file holds exactly the header.
    ensures Valid(r) && opens ==>
      && r'.session == Some(Session(name))
      && r'.stream == Open(path, true)
      && path in r'.files && r'.files[path] == Header
    // On failure the (possibly stale) session pointer is kept and the
    // stream is left closed.
    ensures Valid(r) && !opens ==> r'.session == r.session && r'.stream == Closed
    // A failed open writes no header, truncates nothing and creates no
    // file: only the footer of a session that was open reaches the disk.
    ensures Valid(r) && !opens ==>
      r'.files == if r.stream.Open? then r.files[r.stream.path := r.files[r.stream.path] + Footer] else r.files
    // A session that was open is ended first: its file receives the footer,
    // and keeps it unless the new session truncates the same path.
    ensures Valid(r) && r.stream.Open? && (r.stream.path != path || !opens) ==>
      && r.stream.path in r'.files
      && r'.files[r.stream.path] == r.files[r.stream.path] + Footer
    // No other file is touched.
    ensures forall q :: q in r.files && q != path && !(r.stream.Open? && q == r.stream.path) ==>
      q in r'.files && r'.files[q] == r.files[q]
    ensures forall q :: q in r'.files ==> q in r.files || q == path || (r.stream.Open? && q == r.stream.path)
  {
    var ended := if r.session.Some? then InternalEndSession(r) else r;
    var afterOpen := OpenStream(ended, path, opens);
    if afterOpen.stream.Open? then WriteHeader(afterOpen.(session := Some(Session(name)))) else afterOpen
  }

  /** `BeginSession` called without a path writes to the default file. */
  function BeginDefaultSession(r: Recorder, name: string, opens: bool): (r': Recorder)
    ensures Valid(r) && opens ==>
      && r'.session == Some(Session(name))
      && r'.stream == Open(DefaultPath, true)
      && DefaultPath in r'.files && r'.files[DefaultPath] == Header
    ensures Valid(r) && !opens ==> r'.stream == Closed && (DefaultPath in r'.files ==> DefaultPath in r.files)
  {
    BeginSession(r, name, DefaultPath, opens)
  }

  function EndSession(r: Recorder): (r': Recorder)
    ensures Valid(r) ==> Valid(r')
    ensures r'.session == r.session
    ensures r'.stream.Closed? <==> r.stream.Closed? || r.session.Some?
    ensures Valid(r) && r.stream.Open? ==>
      r'.files == r.files[r.stream.path := r.files[r.stream.path] + Footer]
    ensures !Recording(r) ==> r'.files == r.files
  {
    InternalEndSession(r)
  }

  function WriteProfile(r: Recorder, result: ProfileResult): (r': Recorder)
    ensures r'.session == r.session && r'.stream == r.stream
    ensures Valid(r) ==> Valid(r')
    // The call has an effect exactly when a session pointer is set and
    // the stream accepts insertions.
    ensures r' != r <==> Recording(r)
    ensures Recording(r) ==>
      r'.files == r.files[r.stream.path := Contents(r.files, r.stream.path) + Fragment(result)]
  {
    if r.session.Some? then
      var r' := Insert(r, Fragment(result));
      assert Recording(r) ==> r'.files[r.stream.path] != Contents(r.files, r.stream.path);
      r'
    else
      r
  }

  /** The singleton's destructor at process exit: it ends the session. */
  function Teardown(r: Recorder): (r': Recorder)
    ensures Valid(r) ==> Valid(r') && r'.stream.Closed?
    ensures r'.session == r.session
    // With the stream already closed there is nothing left to do.
    ensures r.stream.Closed? ==> r' == r
    // An open file is terminated with the footer; no other file changes.
    ensures Valid(r) && r.stream.Open? ==>
      r'.files == r.files[r.stream.path := r.files[r.stream.path] + Footer]
    ensures !Recording(r) ==> r'.files == r.files
  {
    EndSession(r)
  }

  // -----------------------------------------------------------------------
  // Runs: sequences of public calls.

  datatype Call =
    | Begin(name: string, path: Path, opens: bool)
    | End
    | Write(result: ProfileResult)

  function Step(r: Recorder, c: Call): Recorder {
    match c
    case Begin(name, path, opens) => BeginSession(r, name, path, opens)
    case End => EndSession(r)
    case Write(result) => WriteProfile(r, result)
  }

  function Replay(r: Recorder, calls: seq<Call>): Recorder
    decreases |calls|
  {
    if |calls| == 0 then r else Replay(Step(r, calls[0]), calls[1..])
  }

  function Writes(ps: seq<ProfileResult>): (calls: seq<Call>)
    ensures |calls| == |ps|
    ensures forall i :: 0 <= i < |ps| ==> calls[i] == Write(ps[i])
  {
    seq(|ps|, i requires 0 <= i < |ps| => Write(ps[i]))
  }

  lemma {:induction false} RunAppend(r: Recorder, a: seq<Call>, b: seq<Call>)
    ensures Replay(r, a + b) == Replay(Replay(r, a), b)
    decreases |a|
  {
    if |a| == 0 {
      assert a + b == b;
    } else {
      assert (a + b)[1..] == a[1..] + b;
      RunAppend(Step(r, a[0]), a[1..], b);
    }
  }

  /** Every run keeps the invariant. */
  lemma {:induction false} RunKeepsValid(r: Recorder, calls: seq<Call>)
    requires Valid(r)
    ensures Valid(Replay(r, calls))
    decreases |calls|
  {
    if |calls| > 0 {
      RunKeepsValid(Step(r, calls[0]), calls[1..]);
    }
  }

  /** Without a `BeginSession`, no call changes anything: in particular no
      file is created. */
  lemma {:induction false} NoSessionNoEffect(r: Recorder, calls: seq<Call>)
    requires r.session.None?
    requires forall i :: 0 <= i < |calls| ==> !calls[i].Begin?
    ensures Replay(r, calls) == r
    decreases |calls|
  {
    if |calls| > 0 {
      NoSessionNoEffect(Step(r, calls[0]), calls[1..]);
    }
  }

  lemma NeverBegunNoFiles(calls: seq<Call>)
    requires forall i :: 0 <= i < |calls| ==> !calls[i].Begin?
    ensures Replay(Init, calls).files == map[]
  {
    NoSessionNoEffect(Init, calls);
  }

  // Regrouping a concatenation, stated once so the proofs below can cite it.
  lemma Associative(a: string, b: string, c: string)
    ensures a + b + c == a + (b + c)
  {
  }

  /** While recording, the fragments of successive `WriteProfile` calls are
      appended in call order and nothing else changes. */
  lemma {:induction false} WritesAppend(r: Recorder, ps: seq<ProfileResult>)
    requires Recording(r) && r.stream.path in r.files
    ensures Replay(r, Writes(ps)) == r.(files := r.files[r.stream.path := r.files[r.stream.path] + Fragments(ps)])
    decreases |ps|
  {
    var p := r.stream.path;
    if |ps| == 0 {
      assert r.files[p] + [] == r.files[p];
    } else {
      var first := Fragment(ps[0]);
      var rest := Fragments(ps[1..]);
      var next := WriteProfile(r, ps[0]);
      assert next == r.(files := r.files[p := r.files[p] + first]);
      assert Replay(r, Writes(ps)) == Replay(next, Writes(ps)[1..]);
      assert Writes(ps)[1..] == Writes(ps[1..]);
      WritesAppend(next, ps[1..]);
      Associative(r.files[p], first, rest);
      assert r.files[p] + first + rest == r.files[p] + Fragments(ps);
      assert next.files[p := next.files[p] + rest] == r.files[p := r.files[p] + Fragments(ps)];
    }
  }

  /** Framing: a session that opens its file, receives any number of
      records and then ends leaves the file holding the header, the
      records' fragments in call order, and the footer. */
  lemma Framing(r: Recorder, name: string, path: Path, ps: seq<ProfileResult>)
    requires Valid(r)
    ensures path in EndSession(Replay(BeginSession(r, name, path, true), Writes(ps))).files
    ensures EndSession(Replay(BeginSession(r, name, path, true), Writes(ps))).files[path]
         == Header + Fragments(ps) + Footer
    ensures EndSession(Replay(BeginSession(r, name, path, true), Writes(ps))).stream == Closed
    ensures EndSession(Replay(BeginSession(r, name, path, true), Writes(ps))).session == Some(Session(name))
  {
    var begun := BeginSession(r, name, path, true);
    WritesAppend(begun, ps);
  }

  /** The same session as one run of calls. */
  lemma FramingAsRun(r: Recorder, name: string, path: Path, ps: seq<ProfileResult>)
    ensures Replay(r, [Begin(name, path, true)] + Writes(ps) + [End])
         == EndSession(Replay(BeginSession(r, name, path, true), Writes(ps)))
  {
    RunAppend(r, [Begin(name, path, true)], Writes(ps));
    RunAppend(r, [Begin(name, path, true)] + Writes(ps), [End]);
  }

  /** A second `EndSession` changes nothing, whatever the state. */
  lemma EndSessionIdempotent(r: Recorder)
    ensures EndSession(EndSession(r)) == EndSession(r)
  {
  }

  /** After a failed open every later record is dropped, even though the
      session pointer may still be set. */
  lemma {:induction false} FailedOpenDropsWrites(r: Recorder, name: string, path: Path, ps: seq<ProfileResult>)
    requires Valid(r)
    ensures var failed := BeginSession(r, name, path, false);
      && failed.session == r.session
      && Replay(failed, Writes(ps)) == failed
  {
    var failed := BeginSession(r, name, path, false);
    NoEffectWhileClosed(failed, Writes(ps));
  }

  lemma {:induction false} NoEffectWhileClosed(r: Recorder, calls: seq<Call>)
    requires r.stream.Closed?
    requires forall i :: 0 <= i < |calls| ==> !calls[i].Begin?
    ensures Replay(r, calls) == r
    decreases |calls|
  {
    if |calls| > 0 {
      NoEffectWhileClosed(Step(r, calls[0]), calls[1..]);
    }
  }

  // -----------------------------------------------------------------------
  // Well-formed output: every file the recorder has written is a header
  // followed by fragments, and, unless it is the file currently being
  // recorded into, also by the footer.

  ghost predicate Framed(s: string) {
    exists ps :: s == Header + Fragments(ps)
  }

  ghost predicate Complete(s: string) {
    exists ps :: s == Header + Fragments(ps) + Footer
  }

  ghost predicate WellFramed(r: Recorder) {
    forall q :: q in r.files ==>
      if Accepting(r.stream) && q == r.stream.path then Framed(r.files[q]) else Complete(r.files[q])
  }

  lemma EndKeepsWellFramed(r: Recorder)
    requires Valid(r) && WellFramed(r)
    ensures WellFramed(EndSession(r))
    ensures r.session.Some? ==> forall q :: q in EndSession(r).files ==> Complete(EndSession(r).files[q])
  {
    var r' := EndSession(r);
    if r.session.Some? && r.stream.Open? {
      var p := r.stream.path;
      var ps :| r.files[p] == Header + Fragments(ps);
      assert r'.files[p] == Header + Fragments(ps) + Footer;
      assert Complete(r'.files[p]);
    }
  }

  lemma BeginKeepsWellFramed(r: Recorder, name: string, path: Path, opens: bool)
    requires Valid(r) && WellFramed(r)
    ensures WellFramed(BeginSession(r, name, path, opens))
  {
    var ended := if r.session.Some? then InternalEndSession(r) else r;
    EndKeepsWellFramed(r);
    assert ended.stream.Closed?;
    var r' := BeginSession(r, name, path, opens);
    if opens {
      assert r'.files == ended.files[path := Header];
      assert Header == Header + Fragments([]);
      assert Framed(r'.files[path]);
      forall q | q in r'.files && q != path
        ensures Complete(r'.files[q])
      {
        assert r'.files[q] == ended.files[q];
      }
    }
  }

  lemma FramedSnoc(s: string, result: ProfileResult)
    requires Framed(s)
    ensures Framed(s + Fragment(result))
  {
    var ps :| s == Header + Fragments(ps);
    FragmentsSnoc(ps, result);
    Associative(Header, Fragments(ps), Fragment(result));
    assert s + Fragment(result) == Header + Fragments(ps + [result]);
  }

  lemma WriteKeepsWellFramed(r: Recorder, result: ProfileResult)
    requires Valid(r) && WellFramed(r)
    ensures WellFramed(WriteProfile(r, result))
  {
    var r' := WriteProfile(r, result);
    if Recording(r) {
      var p := r.stream.path;
      FramedSnoc(r.files[p], result);
      forall q | q in r'.files
        ensures if Accepting(r'.stream) && q == r'.stream.path then Framed(r'.files[q]) else Complete(r'.files[q])
      {
        if q != p {
          assert r'.files[q] == r.files[q];
        }
      }
    }
  }

  lemma {:induction false} RunKeepsWellFramed(r: Recorder, calls: seq<Call>)
    requires Valid(r) && WellFramed(r)
    ensures Valid(Replay(r, calls)) && WellFramed(Replay(r, calls))
    decreases |calls|
  {
    if |calls| > 0 {
      match calls[0] {
        case Begin(name, path, opens) => BeginKeepsWellFramed(r, name, path, opens);
        case End => EndKeepsWellFramed(r);
        case Write(result) => WriteKeepsWellFramed(r, result);
      }
      RunKeepsWellFramed(Step(r, calls[0]), calls[1..]);
    }
  }

  /** From the initial state, whatever the calls: the invariant holds, and
      once the stream is closed every file written is a complete document. */
  lemma ClosedFilesComplete(calls: seq<Call>)
    ensures Valid(Replay(Init, calls))
    ensures Replay(Init, calls).stream.Closed? ==>
      forall q :: q in Replay(Init, calls).files ==> Complete(Replay(Init, calls).files[q])
  {
    RunKeepsWellFramed(Init, calls);
  }
}
