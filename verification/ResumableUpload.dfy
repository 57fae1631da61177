/**
 The resumable upload of pipeline/scripts/youtube_upload.py, for one video file.

 `Next` is the protocol as a step relation: client, server sessions and the saved record,
 with a crash, a refused request or a lost response after any effect, and sessions that may
 expire at any time.  `Uploader.Upload` is the flow of `main` step by step; it is proved to
 make only protocol steps, so that everything shown of the protocol holds of it.
 */
module ResumableUpload {
  import opened Options

  type File = seq<bv8>

  // ---------- The status query (section 14.4 of RFC 9110 for the byte ranges) ----------

  predicate IsDigit(c: char) { '0' <= c <= '9' }

  function DigitsEnd(s: string, i: nat): (j: nat)
    requires i <= |s|
    ensures i <= j <= |s|
    decreases |s| - i
  {
    if i < |s| && IsDigit(s[i]) then DigitsEnd(s, i + 1) else i
  }

  function DigitsValue(s: string): nat
    requires forall i :: 0 <= i < |s| ==> IsDigit(s[i])
  {
    if s == "" then 0
    else
      var last := s[|s| - 1];
      assert IsDigit(last);
      10 * DigitsValue(s[..|s| - 1]) + (last as int - '0' as int)
  }

  const RANGE_PREFIX := "bytes=0-"

  lemma {:induction false} DigitsEndDigits(s: string, i: nat)
    requires i <= |s|
    ensures forall k :: i <= k < DigitsEnd(s, i) ==> IsDigit(s[k])
    decreases |s| - i
  {
    if i < |s| && IsDigit(s[i]) { DigitsEndDigits(s, i + 1); }
  }

  /** How many bytes the server says it has, from the Range header of a 308 reply. */
  function ParseRangeEnd(header: Option<string>): Option<nat> {
    if header.None? || !(RANGE_PREFIX <= header.value) then None
    else
      var s := header.value;
      var end := DigitsEnd(s, |RANGE_PREFIX|);
      DigitsEndDigits(s, |RANGE_PREFIX|);
      if end == |RANGE_PREFIX| then None else Some(DigitsValue(s[|RANGE_PREFIX|..end]) + 1)
  }

  datatype Action = AlreadyDone | Resume(offset: nat) | Restart | GiveUp

  function DecideResume(status: nat, header: Option<string>, size: nat): Action {
    if status == 200 || status == 201 then AlreadyDone
    else if status == 308 then
      var end := ParseRangeEnd(header);
      var offset := if end.None? then 0 else end.value;
      Resume(if offset < size then offset else size)
    else if status == 404 || status == 410 then Restart
    else GiveUp
  }

  /** The decimal text of a number, as a server prints it. */
  function Decimal(n: nat): (s: string)
    ensures s != "" && forall i :: 0 <= i < |s| ==> IsDigit(s[i])
  {
    var digit := ['0' + (n % 10) as char];
    if n < 10 then digit else Decimal(n / 10) + digit
  }

  lemma {:induction false} DecimalValue(n: nat)
    ensures DigitsValue(Decimal(n)) == n
  {
    var digit := '0' + (n % 10) as char;
    assert digit as int - '0' as int == n % 10;
    if n < 10 {
      assert Decimal(n) == [digit] && [digit][..0] == "";
    } else {
      DecimalValue(n / 10);
      assert Decimal(n)[..|Decimal(n)| - 1] == Decimal(n / 10);
    }
  }

  /** The Range header of a session that holds `n` bytes: none at all for an empty one. */
  function RangeHeader(n: nat): Option<string> {
    if n == 0 then None else Some(RANGE_PREFIX + Decimal(n - 1))
  }

  lemma {:induction false} DigitsEndAll(s: string, i: nat)
    requires i <= |s| && forall k :: i <= k < |s| ==> IsDigit(s[k])
    ensures DigitsEnd(s, i) == |s|
    decreases |s| - i
  {
    if i < |s| { DigitsEndAll(s, i + 1); }
  }

  /** What the server reports is what the client resumes from. */
  lemma {:induction false} RangeRoundTrip(n: nat, size: nat)
    requires n <= size
    ensures DecideResume(308, RangeHeader(n), size) == Resume(n)
  {
    if n > 0 {
      var s := RANGE_PREFIX + Decimal(n - 1);
      DigitsEndAll(s, |RANGE_PREFIX|);
      assert s[|RANGE_PREFIX|..|s|] == Decimal(n - 1);
      DecimalValue(n - 1);
    }
  }

  /** Whatever header comes: the digits after `bytes=0-` count, up to the file's size, and anything after
      them is ignored; a header without such digits says that nothing has arrived. */
  lemma {:induction false} RangeExactly(header: Option<string>, digits: string, rest: string, n: nat, size: nat)
    requires digits == Decimal(n) && (rest != "" ==> !IsDigit(rest[0]))
    ensures header == Some(RANGE_PREFIX + (digits + rest)) ==>
              DecideResume(308, header, size) == Resume(if n + 1 <= size then n + 1 else size)
    ensures header == None || header == Some(RANGE_PREFIX + rest) || !(RANGE_PREFIX <= header.value) ==>
              DecideResume(308, header, size) == Resume(0)
  {
    var p := |RANGE_PREFIX|;
    if header == Some(RANGE_PREFIX + (digits + rest)) {
      var s := header.value;
      DigitsEndIs(s, p, p + |digits|);
      assert s[p..p + |digits|] == digits;
      DecimalValue(n);
    } else if header == Some(RANGE_PREFIX + rest) {
      DigitsEndIs(header.value, p, p);
    }
  }

  lemma {:induction false} DigitsEndIs(s: string, i: nat, j: nat)
    requires i <= j <= |s| && (forall k :: i <= k < j ==> IsDigit(s[k])) && (j < |s| ==> !IsDigit(s[j]))
    ensures DigitsEnd(s, i) == j
    decreases j - i
  {
    if i < j {
      DigitsEndIs(s, i + 1, j);
    }
  }

  // ---------- The protocol ----------

  datatype Status = Open | Completed(video: nat) | Expired

  datatype Session = Session(received: File, status: Status)

  /** `Unaddressed` is an unfinished upload whose entry has no session URI; the client writes no such
      entry, but it may find one. */
  datatype Record = Absent | Unaddressed | Uploading(uri: nat) | Done(video: nat)

  /** Where the current run of the client stands.  An offset of None is Python's. */
  datatype Run =
    | Idle
    | Querying(uri: nat)
    | Creating(offset: Option<nat>)
    | SavingSession(uri: nat, offset: Option<nat>)
    | SendingBody(uri: nat, offset: Option<nat>)
    | Finalizing(uri: nat)
    | SavingDone(video: nat)

  datatype World = World(sessions: seq<Session>, record: Record, run: Run)

  /** Nothing is recorded that could be resumed. */
  predicate NoSession(record: Record) {
    record.Absent? || record.Unaddressed?
  }

  predicate Initial(w: World) {
    |w.sessions| == 0 && NoSession(w.record) && w.run.Idle?
  }

  /** A status reply the server may give for a session: the codes it uses truthfully, and
      any other code (an outage, say) at any time. */
  predicate Answers(s: Session, status: nat, header: Option<string>) {
    && (status == 200 || status == 201 ==> s.status.Completed?)
    && (status == 308 ==> s.status.Open? && header == RangeHeader(|s.received|))
    && (status == 404 || status == 410 ==> s.status.Expired?)
  }

  predicate Start(w: World, w': World) {
    w.run.Idle? && w' == w.(run := match w.record
                                   case Absent => Creating(Some(0))
                                   case Unaddressed => Creating(Some(0))
                                   case Uploading(uri) => Querying(uri)
                                   case Done(_) => Idle)
  }

  /** A crash, an exception, a refused request or a lost response. */
  predicate Abort(w: World, w': World) { w' == w.(run := Idle) }

  predicate Expire(w: World, w': World, uri: nat) {
    && uri < |w.sessions| && w.sessions[uri].status.Open?
    && w' == w.(sessions := w.sessions[uri := w.sessions[uri].(status := Expired)])
  }

  /** The client acts on a status reply. */
  predicate Query(w: World, w': World, file: File, status: nat, header: Option<string>) {
    && w.run.Querying? && w.run.uri < |w.sessions|
    && Answers(w.sessions[w.run.uri], status, header)
    && w' == w.(run := match DecideResume(status, header, |file|)
                       case AlreadyDone =>
                         if w.sessions[w.run.uri].status.Completed?
                         then SavingDone(w.sessions[w.run.uri].status.video) else Idle
                       case Resume(offset) =>
                         if offset >= |file| then Finalizing(w.run.uri) else SendingBody(w.run.uri, Some(offset))
                       case Restart => Creating(None)
                       case GiveUp => Idle)
  }

  predicate Create(w: World, w': World, answered: bool) {
    && w.run.Creating?
    && w' == w.(sessions := w.sessions + [Session([], Open)],
                run := if answered then SavingSession(|w.sessions|, w.run.offset) else Idle)
  }

  predicate SaveSession(w: World, w': World) {
    && w.run.SavingSession?
    && w' == w.(record := Uploading(w.run.uri), run := SendingBody(w.run.uri, w.run.offset))
  }

  /** The session after a PUT of `file[offset..]`: the server stores any prefix of it, and
      may complete the session once it has every byte.  A PUT that does not start where
      the session ends, or meets a closed session, is refused. */
  function Stored(s: Session, file: File, offset: nat, stored: nat, video: Option<nat>): Session
    requires offset + stored <= |file|
  {
    if !s.status.Open? || offset != |s.received| then s
    else
      var received := s.received + file[offset..offset + stored];
      Session(received, if video.Some? && |received| == |file| then Completed(video.value) else Open)
  }

  /** After a PUT the client either sees the completed video or stops. */
  predicate AfterPut(s: Session, run: Run) {
    run.Idle? || (s.status.Completed? && run == SavingDone(s.status.video))
  }

  /** With an offset of None the client stops before it sends anything. */
  predicate SendBody(w: World, w': World, file: File, stored: nat, video: Option<nat>) {
    && w.run.SendingBody? && w.run.offset.Some? && w.run.uri < |w.sessions|
    && w.run.offset.value + stored <= |file|
    && var s := Stored(w.sessions[w.run.uri], file, w.run.offset.value, stored, video);
       && AfterPut(s, w'.run)
       && w' == w.(sessions := w.sessions[w.run.uri := s], run := w'.run)
  }

  predicate Finalize(w: World, w': World, file: File, video: Option<nat>) {
    && w.run.Finalizing? && w.run.uri < |w.sessions|
    && var s := Stored(w.sessions[w.run.uri], file, |file|, 0, video);
       && AfterPut(s, w'.run)
       && w' == w.(sessions := w.sessions[w.run.uri := s], run := w'.run)
  }

  predicate SaveDone(w: World, w': World) {
    w.run.SavingDone? && w' == w.(record := Done(w.run.video), run := Idle)
  }

  datatype Event =
    | EStart
    | EAbort
    | EExpire(uri: nat)
    | EQuery(status: nat, header: Option<string>)
    | ECreate(answered: bool)
    | ESaveSession
    | ESendBody(stored: nat, video: Option<nat>)
    | EFinalize(video: Option<nat>)
    | ESaveDone

  predicate Next(w: World, w': World, file: File, e: Event) {
    match e
    case EStart => Start(w, w')
    case EAbort => Abort(w, w')
    case EExpire(uri) => Expire(w, w', uri)
    case EQuery(status, header) => Query(w, w', file, status, header)
    case ECreate(answered) => Create(w, w', answered)
    case ESaveSession => SaveSession(w, w')
    case ESendBody(stored, video) => SendBody(w, w', file, stored, video)
    case EFinalize(video) => Finalize(w, w', file, video)
    case ESaveDone => SaveDone(w, w')
  }

  /** A run of the system: any number of steps, hence any number of client runs. */
  ghost predicate Steps(trace: seq<World>, events: seq<Event>, file: File) {
    && |trace| == |events| + 1
    && forall i :: 0 <= i < |events| ==> Next(trace[i], trace[i + 1], file, events[i])
  }

  // ---------- What every step keeps ----------

  ghost predicate BytesFit(w: World, file: File) {
    forall u :: 0 <= u < |w.sessions| ==>
      && w.sessions[u].received <= file
      && (w.sessions[u].status.Completed? ==> w.sessions[u].received == file)
  }

  /** A session that holds a video, or live bytes, is the one in the record. */
  ghost predicate Recorded(w: World) {
    forall u :: 0 <= u < |w.sessions| ==>
      && (w.sessions[u].status.Completed? ==>
            w.record == Uploading(u) || w.record == Done(w.sessions[u].status.video))
      && (w.sessions[u].status.Open? && w.sessions[u].received != [] ==> w.record == Uploading(u))
  }

  ghost predicate AtMostOneVideo(w: World) {
    forall u, v :: 0 <= u < v < |w.sessions| && w.sessions[u].status.Completed?
      ==> !w.sessions[v].status.Completed?
  }

  ghost predicate RecordTrue(w: World) {
    match w.record
    case Absent => true
    case Unaddressed => true
    case Uploading(uri) => uri < |w.sessions|
    case Done(video) => exists u :: 0 <= u < |w.sessions| && w.sessions[u].status == Completed(video)
  }

  /** A new session is created only when the recorded one, if any, has expired. */
  ghost predicate MayCreate(w: World) {
    || NoSession(w.record)
    || (w.record.Uploading? && w.record.uri < |w.sessions| && w.sessions[w.record.uri].status.Expired?)
  }

  ghost predicate RunFits(w: World, file: File) {
    match w.run
    case Idle => true
    case Querying(uri) => w.record == Uploading(uri)
    case Creating(_) => MayCreate(w)
    case SavingSession(uri, offset) =>
      && MayCreate(w) && uri < |w.sessions| && w.sessions[uri].received == [] && !w.sessions[uri].status.Completed?
      && (offset.Some? ==> offset.value == 0)
    case SendingBody(uri, offset) =>
      && w.record == Uploading(uri) && uri < |w.sessions| && !w.sessions[uri].status.Completed?
      && (offset.Some? ==> offset.value == |w.sessions[uri].received|)
    case Finalizing(uri) =>
      && w.record == Uploading(uri) && uri < |w.sessions| && !w.sessions[uri].status.Completed?
      && w.sessions[uri].received == file
    case SavingDone(video) =>
      w.record.Uploading? && w.record.uri < |w.sessions| && w.sessions[w.record.uri].status == Completed(video)
  }

  ghost predicate CreatingAtZero(w: World) {
    w.run.Creating? && w.run.offset.Some? ==> w.run.offset.value == 0
  }

  ghost predicate Inv(w: World, file: File) {
    BytesFit(w, file) && Recorded(w) && AtMostOneVideo(w) && RecordTrue(w) && RunFits(w, file) && CreatingAtZero(w)
  }

  lemma {:induction false} QueryKeepsInv(w: World, w': World, file: File, status: nat, header: Option<string>)
    requires Inv(w, file) && Query(w, w', file, status, header)
    ensures Inv(w', file)
  {
    var s := w.sessions[w.run.uri];
    if status == 308 { RangeRoundTrip(|s.received|, |file|); }
  }

  lemma {:induction false} PutKeepsInv(
    w: World, w': World, file: File, uri: nat, offset: nat, stored: nat, video: Option<nat>)
    requires Inv(w, file) && w.record == Uploading(uri) && uri < |w.sessions| && !w.sessions[uri].status.Completed?
    requires offset + stored <= |file|
    requires w'.sessions == w.sessions[uri := Stored(w.sessions[uri], file, offset, stored, video)]
    requires w'.record == w.record && AfterPut(w'.sessions[uri], w'.run)
    ensures Inv(w', file)
  {
    var s := w.sessions[uri];
    if s.status.Open? && offset == |s.received| {
      assert s.received + file[offset..offset + stored] == file[..offset + stored];
    }
  }

  lemma {:induction false} DoneKeepsInv(w: World, w': World, file: File)
    requires Inv(w, file) && SaveDone(w, w')
    ensures Inv(w', file)
  {
    assert w'.sessions[w.record.uri].status == Completed(w.run.video);
  }

  lemma {:induction false} ExpireKeepsInv(w: World, w': World, file: File, uri: nat)
    requires Inv(w, file) && Expire(w, w', uri)
    ensures Inv(w', file)
  {
    VideosStay(w, w');
  }

  lemma {:induction false} CreateKeepsInv(w: World, w': World, file: File, answered: bool)
    requires Inv(w, file) && Create(w, w', answered)
    ensures Inv(w', file)
  {
    VideosStay(w, w');
  }

  lemma {:induction false} StepKeepsInv(w: World, w': World, file: File, e: Event)
    requires Inv(w, file) && Next(w, w', file, e)
    ensures Inv(w', file)
  {
    match e
    case EQuery(status, header) => QueryKeepsInv(w, w', file, status, header);
    case ESendBody(stored, video) => PutKeepsInv(w, w', file, w.run.uri, w.run.offset.value, stored, video);
    case EFinalize(video) => PutKeepsInv(w, w', file, w.run.uri, |file|, 0, video);
    case ESaveDone => DoneKeepsInv(w, w', file);
    case EExpire(uri) => ExpireKeepsInv(w, w', file, uri);
    case ECreate(answered) => CreateKeepsInv(w, w', file, answered);
    case EStart =>
    case EAbort =>
    case ESaveSession =>
  }

  lemma {:induction false} VideosStay(w: World, w': World)
    requires RecordTrue(w) && w'.record == w.record && |w.sessions| <= |w'.sessions|
    requires forall u :: 0 <= u < |w.sessions| && w.sessions[u].status.Completed? ==> w'.sessions[u] == w.sessions[u]
    ensures RecordTrue(w')
  {
    match w.record
    case Absent =>
    case Unaddressed =>
    case Uploading(_) =>
    case Done(video) =>
      var u :| 0 <= u < |w.sessions| && w.sessions[u].status == Completed(video);
      assert w'.sessions[u] == w.sessions[u];
  }

  /** Whatever crashes, is lost or expires, and however often the upload is run again: the
      server never holds two videos, every session holds a prefix of the file, a completed
      one all of it, and a `done` record names a video that exists. */
  lemma {:induction false} NeverTwoVideos(trace: seq<World>, events: seq<Event>, file: File)
    requires Steps(trace, events, file) && Initial(trace[0])
    ensures forall i :: 0 <= i < |trace| ==>
      Inv(trace[i], file) && AtMostOneVideo(trace[i]) && BytesFit(trace[i], file) && RecordTrue(trace[i])
    decreases |events|
  {
    if |events| > 0 {
      var n := |events| - 1;
      NeverTwoVideos(trace[..n + 1], events[..n], file);
      assert Inv(trace[..n + 1][n], file);
      StepKeepsInv(trace[n], trace[n + 1], file, events[n]);
      forall i | 0 <= i < |trace|
        ensures Inv(trace[i], file)
      {
        if i <= n { assert trace[i] == trace[..n + 1][i]; }
      }
    }
  }

  // ---------- The client, step by step ----------

  /** What may go wrong in one run of the client. */
  datatype QueryFault = QueryFine | QueryLost | QueryOutage | AnswerWithoutId
  datatype CreateFault = CreateFine | CreateRefused | CreateLost
  // `PutBroken`: no answer, an error, or an answer without a video id, with `stored` bytes taken.
  datatype PutFault = PutFine(video: nat) | PutBroken(stored: nat, unseen: Option<nat>)
  datatype Faults = Faults(
    query: QueryFault, create: CreateFault, crashBeforeSave: bool, put: PutFault, crashBeforeDone: bool,
    otherCode: bool)  // the last is no fault: the server may use either code at any time

  predicate Quiet(f: Faults) {
    f.query.QueryFine? && f.create.CreateFine? && !f.crashBeforeSave && f.put.PutFine? && !f.crashBeforeDone
  }

  /** A first run whose connection breaks before the server has the whole file. */
  predicate Interrupted(f: Faults, file: File) {
    && f.create.CreateFine? && !f.crashBeforeSave
    && f.put.PutBroken? && f.put.stored < |file|
  }

  datatype Outcome = Skipped | Finished(video: nat) | Stopped

  const OUTAGE: nat := 503

  class Uploader {
    const file: File
    var sessions: seq<Session>  // what the server holds
    var record: Record  // the saved upload record
    ghost var run: Run
    ghost var worlds: seq<World>
    ghost var events: seq<Event>

    ghost function Now(): World
      reads this
    {
      World(sessions, record, run)
    }

    /** Everything so far has been a run of the protocol. */
    ghost predicate Valid()
      reads this
    {
      Steps(worlds, events, file) && Initial(worlds[0]) && worlds[|events|] == Now()
    }

    constructor (file: File, record: Record)
      requires NoSession(record)
      ensures Valid() && this.file == file && Initial(Now()) && this.record == record
    {
      this.file := file;
      sessions, this.record, run := [], record, Idle;
      worlds, events := [World([], record, Idle)], [];
    }

    lemma {:induction false} ValidInv()
      requires Valid()
      ensures Inv(Now(), file)
    {
      NeverTwoVideos(worlds, events, file);
    }

    /** The state has just changed by the step `e`. */
    ghost method Took(e: Event)
      requires Steps(worlds, events, file) && Initial(worlds[0]) && Next(worlds[|events|], Now(), file, e)
      modifies this`worlds, this`events
      ensures Valid()
    {
      worlds, events := worlds + [Now()], events + [e];
    }

    /** A session expires, at any moment between two steps of the client. */
    method ExpireSession(uri: nat)
      requires Valid() && uri < |sessions| && sessions[uri].status.Open?
      modifies this
      ensures Valid() && record == old(record) && run == old(run)
      ensures sessions == old(sessions)[uri := old(sessions[uri]).(status := Expired)]
    {
      sessions := sessions[uri := sessions[uri].(status := Expired)];
      Took(EExpire(uri));
    }

    ghost method Stop()
      requires Valid()
      modifies this`run, this`worlds, this`events
      ensures Valid() && run.Idle?
    {
      run := Idle;
      Took(EAbort);
    }

    /** `record_done`, or a crash just before it. */
    method RecordDone(video: nat, crash: bool) returns (outcome: Outcome)
      requires Valid() && run == SavingDone(video)
      modifies this
      ensures Valid() && run.Idle? && sessions == old(sessions)
      ensures if crash then outcome.Stopped? && record == old(record)
              else outcome == Finished(video) && record == Done(video)
    {
      if crash {
        Stop();
        return Stopped;
      }
      record, run := Done(video), Idle;
      Took(ESaveDone);
      outcome := Finished(video);
    }

    /** `query_upload_status`: the server answers truthfully, with either of the two codes that it has
        for a completed and for an expired session, or with an outage. */
    method QueryStatus(uri: nat, outage: bool, otherCode: bool) returns (status: nat, header: Option<string>)
      requires uri < |sessions|
      ensures Answers(sessions[uri], status, header)
      ensures outage ==> status == OUTAGE
      ensures !outage ==> match sessions[uri].status
                          case Open => status == 308
                          case Completed(_) => status == if otherCode then 201 else 200
                          case Expired => status == if otherCode then 410 else 404
    {
      var s := sessions[uri];
      if outage {
        status, header := OUTAGE, None;
      } else {
        header := None;
        match s.status {
          case Open => status, header := 308, RangeHeader(|s.received|);
          case Completed(_) => status := if otherCode then 201 else 200;
          case Expired => status := if otherCode then 410 else 404;
        }
      }
    }

    /** The server's side of a PUT of `file[offset..]`; the client learns the video, or fails. */
    method Put(uri: nat, offset: nat, fault: PutFault) returns (video: Option<nat>)
      requires uri < |sessions| && offset <= |file|
      modifies this`sessions
      ensures match fault
              case PutFine(v) =>
                && sessions == old(sessions)[uri := Stored(old(sessions[uri]), file, offset, |file| - offset, Some(v))]
                && video == if sessions[uri].status.Completed? then Some(sessions[uri].status.video) else None
              case PutBroken(stored, v) =>
                && video.None?
                && var n := if offset + stored <= |file| then stored else |file| - offset;
                   sessions == old(sessions)[uri := Stored(old(sessions[uri]), file, offset, n, v)]
    {
      match fault
      case PutFine(v) =>
        sessions := sessions[uri := Stored(sessions[uri], file, offset, |file| - offset, Some(v))];
        video := if sessions[uri].status.Completed? then Some(sessions[uri].status.video) else None;
      case PutBroken(stored, v) =>
        var n := if offset + stored <= |file| then stored else |file| - offset;
        sessions := sessions[uri := Stored(sessions[uri], file, offset, n, v)];
        video := None;
    }

    /** `main`: skip, resume, finalise or start over; after a restart the offset is `None`, on which
        `fh.seek` raises. */
    method Upload(faults: Faults) returns (outcome: Outcome)
      requires Valid() && run.Idle?
      modifies this
      ensures Valid() && run.Idle?
      ensures old(record).Done? ==> outcome.Skipped? && record == old(record) && sessions == old(sessions)
      ensures Quiet(faults) && MustFinish(old(record), old(sessions)) ==>
        outcome.Finished? && record == Done(outcome.video)
      ensures Quiet(faults) && MustRestart(old(record), old(sessions)) ==>
        outcome.Stopped? && sessions == old(sessions) + [Session([], Open)] && record == Uploading(|old(sessions)|)
      ensures Interrupted(faults, file) && NoSession(old(record)) ==>
        && outcome.Stopped? && record == Uploading(|old(sessions)|) && |sessions| == |old(sessions)| + 1
        && sessions[record.uri] == Session(file[..faults.put.stored], Open)
    {
      ValidInv();
      if record.Done? {
        run := Idle;
        Took(EStart);
        return Skipped;
      }
      if record.Uploading? {
        outcome := ResumeUpload(faults);
        return;
      }
      run := Creating(Some(0));
      Took(EStart);
      outcome := SendFile(Some(0), None, faults);
    }

    /** The branch of `main` that finds a recorded session: ask where it stands, and go on from there. */
    method ResumeUpload(faults: Faults) returns (outcome: Outcome)
      requires Valid() && run.Idle? && record.Uploading? && record.uri < |sessions|
      modifies this
      ensures Valid() && run.Idle?
      ensures Quiet(faults) && MustFinish(old(record), old(sessions)) ==>
        outcome.Finished? && record == Done(outcome.video)
      ensures Quiet(faults) && MustRestart(old(record), old(sessions)) ==>
        outcome.Stopped? && sessions == old(sessions) + [Session([], Open)] && record == Uploading(|old(sessions)|)
      ensures faults.query.QueryLost? || faults.query.QueryOutage? ==>
        outcome.Stopped? && sessions == old(sessions) && record == old(record)
    {
      ValidInv();
      run := Querying(record.uri);
      Took(EStart);
      if faults.query.QueryLost? {
        Stop();
        return Stopped;
      }
      var status, header := QueryStatus(record.uri, faults.query.QueryOutage?, faults.otherCode);
      var s := sessions[record.uri];
      if status == 308 { RangeRoundTrip(|s.received|, |file|); }
      match DecideResume(status, header, |file|) {
        case AlreadyDone =>
          if faults.query.AnswerWithoutId? {
            Stop();
            return Stopped;
          }
          run := SavingDone(s.status.video);
          Took(EQuery(status, header));
          outcome := RecordDone(s.status.video, faults.crashBeforeDone);
        case Resume(o) =>
          if o >= |file| {
            run := Finalizing(record.uri);
            Took(EQuery(status, header));
            ValidInv();
            outcome := FinalizeUpload(record.uri, faults);
          } else {
            run := SendingBody(record.uri, Some(o));
            Took(EQuery(status, header));
            outcome := SendFile(Some(o), Some(record.uri), faults);
          }
        case Restart =>
          run := Creating(None);
          Took(EQuery(status, header));
          outcome := SendFile(None, None, faults);
        case GiveUp =>
          run := Idle;
          Took(EQuery(status, header));
          outcome := Stopped;
      }
    }

    /** The rest of `main`: a session if there is none yet, then the bytes from `offset`. */
    method SendFile(offset: Option<nat>, known: Option<nat>, faults: Faults) returns (outcome: Outcome)
      requires Valid() && run == if known.Some? then SendingBody(known.value, offset) else Creating(offset)
      requires known.Some? ==> offset.Some? && known.value < |sessions|
      modifies this
      ensures Valid() && run.Idle?
      ensures Quiet(faults) && offset.Some? && (known.Some? ==> old(sessions[known.value]).status.Open?) ==>
        outcome.Finished? && record == Done(outcome.video)
      ensures Quiet(faults) && offset.None? ==>
        outcome.Stopped? && sessions == old(sessions) + [Session([], Open)] && record == Uploading(|old(sessions)|)
      ensures Interrupted(faults, file) && known.None? && offset.Some? ==>
        && outcome.Stopped? && record == Uploading(|old(sessions)|) && |sessions| == |old(sessions)| + 1
        && sessions[record.uri] == Session(file[..faults.put.stored], Open)
    {
      ValidInv();
      var uri := known;
      if uri.None? {
        uri := InitUpload(offset, faults);
        if uri.None? { return Stopped; }
      }
      if offset.None? {
        Stop();
        return Stopped;
      }
      ValidInv();
      outcome := UploadBody(uri.value, offset.value, faults);
    }

    /** `init_upload`, then the session is saved before any byte is sent. */
    method InitUpload(offset: Option<nat>, faults: Faults) returns (uri: Option<nat>)
      requires Valid() && run == Creating(offset)
      modifies this
      ensures Valid()
      ensures uri.Some? <==> faults.create.CreateFine? && !faults.crashBeforeSave
      ensures if uri.None? then run.Idle? && record == old(record)
              else && uri.value == |old(sessions)| && sessions == old(sessions) + [Session([], Open)]
                   && record == Uploading(uri.value) && run == SendingBody(uri.value, offset)
    {
      if faults.create.CreateRefused? {
        Stop();
        return None;
      }
      uri := Some(|sessions|);
      sessions := sessions + [Session([], Open)];
      if faults.create.CreateLost? {
        run := Idle;
        Took(ECreate(false));
        return None;
      }
      run := SavingSession(uri.value, offset);
      Took(ECreate(true));
      if faults.crashBeforeSave {
        Stop();
        return None;
      }
      record, run := Uploading(uri.value), SendingBody(uri.value, offset);
      Took(ESaveSession);
    }

    method UploadBody(uri: nat, offset: nat, faults: Faults) returns (outcome: Outcome)
      requires Valid() && run == SendingBody(uri, Some(offset)) && uri < |sessions| && offset <= |file|
      modifies this
      ensures Valid() && run.Idle?
      ensures Quiet(faults) && old(sessions[uri]).status.Open? && offset == |old(sessions[uri]).received|
        ==> outcome.Finished? && record == Done(outcome.video)
      ensures old(sessions[uri]).status.Expired? ==>
        outcome.Stopped? && sessions == old(sessions) && record == old(record)
      ensures Interrupted(faults, file) && old(sessions[uri]) == Session([], Open) && offset == 0
        ==> && outcome.Stopped? && record == old(record)
            && sessions == old(sessions)[uri := Session(file[..faults.put.stored], Open)]
    {
      ghost var stored: nat := match faults.put
                               case PutFine(_) => |file| - offset
                               case PutBroken(n, _) => if offset + n <= |file| then n else |file| - offset;
      ghost var v := match faults.put case PutFine(v) => Some(v) case PutBroken(_, v) => v;
      var video := Put(uri, offset, faults.put);
      assert offset == 0 ==> [] + file[offset..offset + stored] == file[..stored];
      outcome := AfterSending(ESendBody(stored, v), video, faults);
    }

    method FinalizeUpload(uri: nat, faults: Faults) returns (outcome: Outcome)
      requires Valid() && run == Finalizing(uri) && uri < |sessions|
      modifies this
      ensures Valid() && run.Idle?
      ensures Quiet(faults) && old(sessions[uri]).status.Open? && |file| == |old(sessions[uri]).received|
        ==> outcome.Finished? && record == Done(outcome.video)
    {
      ghost var v := match faults.put case PutFine(v) => Some(v) case PutBroken(_, v) => v;
      var video := Put(uri, |file|, faults.put);
      outcome := AfterSending(EFinalize(v), video, faults);
    }

    method AfterSending(ghost e: Event, video: Option<nat>, faults: Faults) returns (outcome: Outcome)
      requires Steps(worlds, events, file) && Initial(worlds[0])
      requires Next(worlds[|events|], Now().(run := if video.Some? then SavingDone(video.value) else Idle), file, e)
      modifies this
      ensures Valid() && run.Idle? && sessions == old(sessions)
      ensures Quiet(faults) && video.Some? ==> outcome.Finished? && record == Done(outcome.video)
      ensures video.None? ==> outcome.Stopped? && record == old(record)
    {
      run := if video.Some? then SavingDone(video.value) else Idle;
      Took(e);
      if video.None? { return Stopped; }
      outcome := RecordDone(video.value, faults.crashBeforeDone);
    }
  }

  /** A run must finish: nothing is recorded yet, or the recorded session is alive. */
  predicate MustFinish(record: Record, sessions: seq<Session>) {
    NoSession(record) || (record.Uploading? && record.uri < |sessions| && !sessions[record.uri].status.Expired?)
  }

  /** The recorded session has expired: the run can only prepare the next one. */
  predicate MustRestart(record: Record, sessions: seq<Session>) {
    record.Uploading? && record.uri < |sessions| && sessions[record.uri].status.Expired?
  }

  /** From any reachable state, two quiet runs are enough to finish. */
  method TwoRunsFinish(u: Uploader, first: Faults, second: Faults) returns (outcome: Outcome)
    requires u.Valid() && u.run.Idle? && Quiet(first) && Quiet(second)
    modifies u
    ensures u.Valid() && u.record.Done? && AtMostOneVideo(u.Now())
    ensures exists s :: 0 <= s < |u.sessions| && u.sessions[s] == Session(u.file, Completed(u.record.video))
  {
    u.ValidInv();
    outcome := u.Upload(first);
    u.ValidInv();
    if !u.record.Done? {
      outcome := u.Upload(second);
      u.ValidInv();
    }
    assert RecordTrue(u.Now());
    ghost var s :| 0 <= s < |u.sessions| && u.sessions[s].status == Completed(u.record.video);
    assert u.sessions[s] == Session(u.file, Completed(u.record.video));
  }

  /** An upload breaks off, its session expires, and the file still arrives: the next run only
      saves a fresh session, and the one after it finishes. */
  method ExpiredThenFinished(u: Uploader, broken: Faults, first: Faults, second: Faults)
    returns (middle: Outcome, last: Outcome)
    requires u.Valid() && u.run.Idle? && NoSession(u.record) && Interrupted(broken, u.file)
    requires Quiet(first) && Quiet(second)
    modifies u
    ensures u.Valid() && middle.Stopped? && last.Finished? && u.record == Done(last.video)
    ensures AtMostOneVideo(u.Now())
    ensures exists s :: 0 <= s < |u.sessions| && u.sessions[s] == Session(u.file, Completed(last.video))
  {
    var stopped := u.Upload(broken);
    u.ExpireSession(u.record.uri);
    middle := u.Upload(first);
    last := u.Upload(second);
    u.ValidInv();
    assert RecordTrue(u.Now());
    ghost var s :| 0 <= s < |u.sessions| && u.sessions[s].status == Completed(last.video);
    assert u.sessions[s] == Session(u.file, Completed(last.video));
  }
}
