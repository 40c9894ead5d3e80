/** A store of messages on disk: an append-only body, an append-only index of it, a record of
    two counters, a session file, and what is kept in memory of them. The store implements a
    map from numbers to messages, whatever is called and whenever it is opened again. */
module FileStores {
  import opened Decimal
  import opened DateTimes
  import opened TimeConvertor
  import opened StoreFormats

  // ----- the state

  /** The files; None when there is no such file. */
  datatype Files = Files(body: Option<seq<byte>>, header: Option<seq<byte>>,
                         seqnums: Option<seq<byte>>, session: Option<seq<byte>>)
  {
    predicate AllThere() {
      body.Some? && header.Some? && seqnums.Some? && session.Some?
    }
  }

  const NO_FILES: Files := Files(None, None, None, None)

  datatype Span = Span(offset: nat, size: nat)

  /** Where each message is in the body. */
  type Index = map<nat, Span>

  datatype Memory = Memory(sender: SeqNum, target: SeqNum, created: Stamp, offsets: Index)

  /** What a new memory store holds, and an empty index. */
  function NewMemory(now: Stamp): Memory {
    Memory(1, 1, now, map[])
  }

  function ContentOf(file: Option<seq<byte>>): seq<byte> {
    if file.Some? then file.value else []
  }

  /** A write at the start of a file. */
  function Overwritten(file: seq<byte>, text: seq<byte>): (r: seq<byte>)
    ensures text <= r && |r| == if |file| > |text| then |file| else |text|
    ensures forall i :: |text| <= i < |file| ==> r[i] == file[i]
  {
    text + if |file| > |text| then file[|text|..] else []
  }

  // ----- reading the files back

  function Indexed(offsets: Index, e: LogEntry): Index {
    offsets[e.num := Span(e.offset, e.size)]
  }

  /** The entries, oldest first, put into the index. */
  function Replayed(offsets: Index, log: seq<LogEntry>): Index
    decreases |log|
  {
    if log == [] then offsets else Replayed(Indexed(offsets, log[0]), log[1..])
  }

  lemma {:induction false} ReplayedAppend(offsets: Index, log: seq<LogEntry>, e: LogEntry)
    ensures Replayed(offsets, log + [e]) == Indexed(Replayed(offsets, log), e)
    decreases |log|
  {
    if log != [] {
      assert (log + [e])[1..] == log[1..] + [e];
      ReplayedAppend(Indexed(offsets, log[0]), log[1..], e);
    } else {
      assert [e][1..] == [];
    }
  }

  /** The counters in a record; those given when there is none. */
  function CountersIn(file: Option<seq<byte>>, otherwise: Counters): Counters {
    if file.Some? && ReadRecord(file.value).Some? then ReadRecord(file.value).value else otherwise
  }

  /** The creation time in a session file; the one given when there is none. None when the file
      holds something that is not a time. */
  function CreationIn(file: Option<seq<byte>>, otherwise: Stamp): Option<Stamp> {
    if file.None? || ScanToken(file.value).None? then Some(otherwise)
    else ParsedTimeStamp(ScanToken(file.value).value)
  }

  /** populateCache */
  function Populated(files: Files, m: Memory): Option<Memory> {
    var offsets := Replayed(m.offsets, Scan(ContentOf(files.header)));
    var counters := CountersIn(files.seqnums, Counters(m.sender, m.target));
    var created := CreationIn(files.session, m.created);
    if created.None? then None
    else Some(Memory(counters.sender, counters.target, created.value, offsets))
  }

  datatype State = State(files: Files, memory: Memory)

  /** The files once they are open: none is missing, and the record and, if it was missing,
      the session are written. */
  function Completed(files: Files, record: seq<byte>, session: seq<byte>): Files {
    Files(Some(ContentOf(files.body)), Some(ContentOf(files.header)),
          Some(Overwritten(ContentOf(files.seqnums), record)),
          Some(if files.session.Some? then files.session.value else session))
  }

  /** open(false); None when the session cannot be read. */
  function Opened(files: Files, m: Memory): (r: Option<State>)
    requires IsTime(m.created)
    ensures r.Some? ==> r.value.files.AllThere()
  {
    var p := Populated(files, m);
    if p.None? then None
    else Some(State(Completed(files, RecordText(p.value.sender, p.value.target), SessionText(m.created)), p.value))
  }

  // ----- one message

  /** A message that went through a C string ends at its first NUL. */
  function CString(s: seq<byte>): (r: seq<byte>)
    ensures r == s <==> 0 !in s
  {
    if s == [] || s[0] == 0 then [] else [s[0]] + CString(s[1..])
  }

  lemma {:induction false} CStringIs(s: seq<byte>, n: nat)
    requires n <= |s| && (n < |s| ==> s[n] == 0) && forall i :: 0 <= i < n ==> s[i] != 0
    ensures CString(s) == s[..n]
  {
    if n > 0 {
      CStringIs(s[1..], n - 1);
    }
  }

  datatype Reading = Missing | Failed | Found(msg: seq<byte>)

  /** get of one message: not in the index, not in the body, or there. Nothing is read for an
      empty one, wherever it is said to be. */
  function Read(offsets: Index, body: seq<byte>, num: nat): Reading {
    if num !in offsets then Missing
    else
      var span := offsets[num];
      if span.size == 0 then Found([])
      else if span.offset + span.size > |body| then Failed
      else Found(CString(body[span.offset..span.offset + span.size]))
  }

  /** get of a range, number by number; the number after the last one is 0. None when a
      message cannot be read. */
  function ReadFrom(offsets: Index, body: seq<byte>, i: SeqNum, end: SeqNum): Option<seq<seq<byte>>>
    decreases if i == 0 then 0 else SEQNUMS - i
  {
    if i == 0 || i > end then Some([])
    else
      var r := Read(offsets, body, i);
      var rest := ReadFrom(offsets, body, (i + 1) % SEQNUMS, end);
      if r.Failed? || rest.None? then None
      else Some((if r.Found? then [r.msg] else []) + rest.value)
  }

  function Prepended(msgs: seq<seq<byte>>, rest: Option<seq<seq<byte>>>): Option<seq<seq<byte>>> {
    if rest.Some? then Some(msgs + rest.value) else None
  }

  lemma PrependedNone(rest: Option<seq<seq<byte>>>)
    ensures Prepended([], rest) == rest
  {
    assert rest.Some? ==> [] + rest.value == rest.value;
  }

  /** A step of the loop of get. */
  lemma PrependedStep(offsets: Index, body: seq<byte>, i: SeqNum, end: SeqNum, msgs: seq<seq<byte>>)
    requires i != 0 && i <= end && !Read(offsets, body, i).Failed?
    ensures Prepended(msgs, ReadFrom(offsets, body, i, end))
         == Prepended(msgs + (if Read(offsets, body, i).Found? then [Read(offsets, body, i).msg] else []),
                      ReadFrom(offsets, body, (i + 1) % SEQNUMS, end))
  {
    var rest := ReadFrom(offsets, body, (i + 1) % SEQNUMS, end);
    var r := Read(offsets, body, i);
    var first := if r.Found? then [r.msg] else [];
    assert rest.Some? ==> msgs + (first + rest.value) == (msgs + first) + rest.value;
  }

  lemma OverwrittenAgain(file: seq<byte>, s: seq<byte>, t: seq<byte>)
    requires |s| == |t|
    ensures Overwritten(Overwritten(file, s), t) == Overwritten(file, t)
  {
  }

  // ----- what the files go through

  /** The stages that differ from the one before, the first of them from the files. */
  function Changes(files: Files, stages: seq<Files>): seq<Files>
    decreases |stages|
  {
    if stages == [] then []
    else (if stages[0] == files then [] else [stages[0]]) + Changes(stages[0], stages[1..])
  }

  ghost predicate Went(before: seq<Files>, after: seq<Files>, files: Files, stages: seq<Files>) {
    after == before + Changes(files, stages)
  }

  function LastOf(files: Files, stages: seq<Files>): Files {
    if stages == [] then files else stages[|stages| - 1]
  }

  lemma {:induction false} ChangesJoin(files: Files, a: seq<Files>, b: seq<Files>)
    ensures Changes(files, a + b) == Changes(files, a) + Changes(LastOf(files, a), b)
    decreases |a|
  {
    if a != [] {
      ChangesJoin(a[0], a[1..], b);
      assert (a + b)[1..] == a[1..] + b;
    } else {
      assert a + b == b;
    }
  }

  lemma WentOn(p: seq<Files>, q: seq<Files>, r: seq<Files>, files: Files, a: seq<Files>, b: seq<Files>)
    requires Went(p, q, files, a) && Went(q, r, LastOf(files, a), b)
    ensures Went(p, r, files, a + b)
  {
    ChangesJoin(files, a, b);
  }

  /** Within open: after a file is made that was missing, after a new session file is written,
      and after the record is. */
  datatype OpenStop = BodyMade | HeaderMade | RecordMade | SessionMade | SessionWritten | RecordWritten

  function WithBody(files: Files): Files {
    files.(body := Some(ContentOf(files.body)))
  }

  function WithHeader(files: Files): Files {
    WithBody(files).(header := Some(ContentOf(files.header)))
  }

  function WithRecord(files: Files): Files {
    WithHeader(files).(seqnums := Some(ContentOf(files.seqnums)))
  }

  /** The files at a stage of an opening that will write this record and, if there is no session
      file, this session. */
  function OpenStage(files: Files, stop: OpenStop, record: seq<byte>, session: seq<byte>): Files {
    match stop
    case BodyMade => WithBody(files)
    case HeaderMade => WithHeader(files)
    case RecordMade => WithRecord(files)
    case SessionMade => WithRecord(files).(session := Some(ContentOf(files.session)))
    case SessionWritten => WithRecord(files).(session := Some(if files.session.Some? then files.session.value else session))
    case RecordWritten => Completed(files, record, session)
  }

  function FirstStages(files: Files): seq<Files> {
    [WithBody(files), WithHeader(files), WithRecord(files)]
  }

  function OpenStages(files: Files, record: seq<byte>, session: seq<byte>): seq<Files> {
    FirstStages(files)
    + ([OpenStage(files, SessionMade, record, session), OpenStage(files, SessionWritten, record, session)]
       + [OpenStage(files, RecordWritten, record, session)])
  }

  lemma WentTwice(p: seq<Files>, q: seq<Files>, r: seq<Files>, files: Files, a: Files, b: Files)
    requires Went(p, q, files, [a]) && Went(q, r, a, [b])
    ensures Went(p, r, files, [a, b])
  {
    WentOn(p, q, r, files, [a], [b]);
    assert [a] + [b] == [a, b];
  }

  lemma StayedThere(p: seq<Files>, files: Files)
    ensures Went(p, p, files, [files])
  {
    assert [files][1..] == [];
    assert p + [] == p;
  }

  lemma WentFirst(p: seq<Files>, q: seq<Files>, r: seq<Files>, t: seq<Files>, files: Files)
    requires Went(p, q, files, [WithBody(files)]) && Went(q, r, WithBody(files), [WithHeader(files)])
    requires Went(r, t, WithHeader(files), [WithRecord(files)])
    ensures Went(p, t, files, FirstStages(files))
  {
    WentTwice(p, q, r, files, WithBody(files), WithHeader(files));
    WentOn(p, r, t, files, [WithBody(files), WithHeader(files)], [WithRecord(files)]);
    assert [WithBody(files), WithHeader(files)] + [WithRecord(files)] == FirstStages(files);
  }

  lemma WentAway(p: seq<Files>, q: seq<Files>, r: seq<Files>, t: seq<Files>, u: seq<Files>,
                 files: Files, a: Files, b: Files, c: Files, d: Files)
    requires Went(p, q, files, [a]) && Went(q, r, a, [b]) && Went(r, t, b, [c]) && Went(t, u, c, [d])
    ensures Went(p, u, files, [a, b, c, d])
  {
    WentTwice(p, q, r, files, a, b);
    WentTwice(r, t, u, b, c, d);
    WentOn(p, r, u, files, [a, b], [c, d]);
    assert [a, b] + [c, d] == [a, b, c, d];
  }

  lemma WentNowhere(p: seq<Files>, q: seq<Files>, r: seq<Files>, files: Files, stages: seq<Files>, last: Files)
    requires Went(p, q, files, stages) && Went(q, r, last, [last])
    ensures r == q && Went(p, r, files, stages)
  {
    StayedThere(q, last);
  }

  /** The three parts of an opening. */
  lemma CompletedStages(files: Files, record: seq<byte>, session: seq<byte>,
                        p: seq<Files>, q: seq<Files>, r: seq<Files>, t: seq<Files>)
    requires Went(p, q, files, FirstStages(files))
    requires Went(q, r, WithRecord(files),
                  [OpenStage(files, SessionMade, record, session), OpenStage(files, SessionWritten, record, session)])
    requires Went(r, t, OpenStage(files, SessionWritten, record, session), [OpenStage(files, RecordWritten, record, session)])
    ensures Went(p, t, files, OpenStages(files, record, session))
  {
    WentOn(q, r, t, WithRecord(files),
           [OpenStage(files, SessionMade, record, session), OpenStage(files, SessionWritten, record, session)],
           [OpenStage(files, RecordWritten, record, session)]);
    WentOn(p, q, t, files, FirstStages(files),
           [OpenStage(files, SessionMade, record, session), OpenStage(files, SessionWritten, record, session)]
           + [OpenStage(files, RecordWritten, record, session)]);
  }

  // ----- the classes

  /** The files outlive the process; past is what they have held, change by change. */
  class Disk {
    var body: Option<seq<byte>>
    var header: Option<seq<byte>>
    var seqnums: Option<seq<byte>>
    var session: Option<seq<byte>>
    ghost var past: seq<Files>

    function Content(): Files
      reads this`body, this`header, this`seqnums, this`session
    {
      Files(body, header, seqnums, session)
    }

    constructor ()
      ensures Content() == NO_FILES
    {
      body, header, seqnums, session, past := None, None, None, None, [];
    }

    method WriteBody(content: Option<seq<byte>>)
      modifies `body, `past
      ensures Content() == old(Content()).(body := content)
      ensures Went(old(past), past, old(Content()), [Content()])
    {
      ghost var before := Content();
      body := content;
      past := past + Changes(before, [Content()]);
    }

    method WriteHeader(content: Option<seq<byte>>)
      modifies `header, `past
      ensures Content() == old(Content()).(header := content)
      ensures Went(old(past), past, old(Content()), [Content()])
    {
      ghost var before := Content();
      header := content;
      past := past + Changes(before, [Content()]);
    }

    method WriteSeqNums(content: Option<seq<byte>>)
      modifies `seqnums, `past
      ensures Content() == old(Content()).(seqnums := content)
      ensures Went(old(past), past, old(Content()), [Content()])
    {
      ghost var before := Content();
      seqnums := content;
      past := past + Changes(before, [Content()]);
    }

    method WriteSession(content: Option<seq<byte>>)
      modifies `session, `past
      ensures Content() == old(Content()).(session := content)
      ensures Went(old(past), past, old(Content()), [Content()])
    {
      ghost var before := Content();
      session := content;
      past := past + Changes(before, [Content()]);
    }
  }

  class FileStore {
    const disk: Disk
    var sender: SeqNum
    var target: SeqNum
    var created: Stamp
    var offsets: Index

    function Kept(): Memory
      reads this
    {
      Memory(sender, target, created, offsets)
    }

    function Current(): State
      reads this, disk
    {
      State(disk.Content(), Kept())
    }

    predicate IsOpen()
      reads disk
    {
      disk.Content().AllThere()
    }

    /** A store before its files are opened. */
    constructor (disk: Disk, now: Stamp)
      ensures this.disk == disk && Kept() == NewMemory(now)
    {
      this.disk := disk;
      sender, target, created, offsets := 1, 1, now, map[];
    }

    /** The loop of populateCache over the header file. */
    method ReadHeader(header: seq<byte>)
      modifies `offsets
      ensures offsets == Replayed(old(offsets), Scan(header))
    {
      var rest := header;
      var e := ScanEntry(rest);
      while e.Some?
        invariant e == ScanEntry(rest)
        invariant Replayed(offsets, Scan(rest)) == Replayed(old(offsets), Scan(header))
        decreases |rest|
      {
        ghost var later := Scan(e.value.rest);
        assert ([e.value.entry] + later)[1..] == later;
        offsets := Indexed(offsets, e.value.entry);
        rest := e.value.rest;
        e := ScanEntry(rest);
      }
    }

    method ReadCounters()
      modifies `sender, `target
      ensures Counters(sender, target) == CountersIn(disk.seqnums, old(Counters(sender, target)))
    {
      if disk.seqnums.Some? {
        var r := ReadRecord(disk.seqnums.value);
        if r.Some? {
          sender, target := r.value.sender, r.value.target;
        }
      }
    }

    method ReadSession() returns (ok: bool)
      modifies `created
      ensures var c := CreationIn(disk.session, old(created));
        ok == c.Some? && (ok ==> created == c.value)
    {
      ok := true;
      if disk.session.Some? {
        var token := ScanToken(disk.session.value);
        if token.Some? {
          var time := ParseTimeStamp(token.value);
          ok := time.Some?;
          created := if ok then time.value else created;
        }
      }
    }

    method PopulateCache() returns (ok: bool)
      modifies `sender, `target, `created, `offsets
      ensures var p := Populated(disk.Content(), old(Kept()));
        ok == p.Some? && (ok ==> Kept() == p.value)
    {
      ScanNothing();
      if disk.header.Some? {
        ReadHeader(disk.header.value);
      }
      ReadCounters();
      ok := ReadSession();
    }

    method SetSeqNum()
      requires disk.seqnums.Some?
      modifies disk`seqnums, disk`past
      ensures disk.seqnums == Some(Overwritten(old(disk.seqnums.value), RecordText(sender, target)))
      ensures Went(old(disk.past), disk.past, old(disk.Content()), [disk.Content()])
    {
      disk.WriteSeqNums(Some(Overwritten(disk.seqnums.value, RecordText(sender, target))));
    }

    method SetSession()
      requires disk.session.Some? && IsTime(created)
      modifies disk`session, disk`past
      ensures disk.session == Some(Overwritten(old(disk.session.value), SessionText(created)))
      ensures Went(old(disk.past), disk.past, old(disk.Content()), [disk.Content()])
    {
      var text := PrintTimeStamp(created, 0);
      disk.WriteSession(Some(Overwritten(disk.session.value, text)));
    }

    /** fopen with r+ or else w+ */
    method OpenFiles()
      modifies disk`body, disk`header, disk`seqnums, disk`past
      ensures disk.Content() == WithRecord(old(disk.Content()))
      ensures Went(old(disk.past), disk.past, old(disk.Content()), FirstStages(old(disk.Content())))
    {
      ghost var files, p := disk.Content(), disk.past;
      MakeBody();
      ghost var q := disk.past;
      MakeHeader();
      ghost var r := disk.past;
      MakeSeqNums();
      WentFirst(p, q, r, disk.past, files);
    }

    method MakeBody()
      modifies disk`body, disk`past
      ensures disk.Content() == old(disk.Content()).(body := Some(ContentOf(old(disk.body))))
      ensures Went(old(disk.past), disk.past, old(disk.Content()), [disk.Content()])
    {
      StayedThere(disk.past, disk.Content());
      if disk.body.None? {
        disk.WriteBody(Some([]));
      }
    }

    method MakeHeader()
      modifies disk`header, disk`past
      ensures disk.Content() == old(disk.Content()).(header := Some(ContentOf(old(disk.header))))
      ensures Went(old(disk.past), disk.past, old(disk.Content()), [disk.Content()])
    {
      StayedThere(disk.past, disk.Content());
      if disk.header.None? {
        disk.WriteHeader(Some([]));
      }
    }

    method MakeSeqNums()
      modifies disk`seqnums, disk`past
      ensures disk.Content() == old(disk.Content()).(seqnums := Some(ContentOf(old(disk.seqnums))))
      ensures Went(old(disk.past), disk.past, old(disk.Content()), [disk.Content()])
    {
      StayedThere(disk.past, disk.Content());
      if disk.seqnums.None? {
        disk.WriteSeqNums(Some([]));
      }
    }

    /** The session is written when there was no such file. */
    method OpenSession()
      requires disk.session.None? ==> IsTime(created)
      modifies disk`session, disk`past
      ensures disk.session.Some? && (old(disk.session).Some? ==> disk.session == old(disk.session))
      ensures old(disk.session).None? ==> disk.session == Some(SessionText(created))
      ensures Went(old(disk.past), disk.past, old(disk.Content()),
                   [old(disk.Content()).(session := Some(ContentOf(old(disk.session)))), disk.Content()])
    {
      ghost var files, p := disk.Content(), disk.past;
      if disk.session.None? {
        disk.WriteSession(Some([]));
        ghost var q := disk.past;
        SetSession();
        assert Overwritten([], SessionText(created)) == SessionText(created);
        WentTwice(p, q, disk.past, files, files.(session := Some([])), disk.Content());
      } else {
        StayedThere(p, files);
        WentTwice(p, p, p, files, files, files);
      }
    }

    method RewriteCounters()
      requires IsOpen()
      modifies `sender, `target, disk`seqnums, disk`past
      ensures sender == old(sender) && target == old(target)
      ensures disk.seqnums == Some(Overwritten(old(disk.seqnums.value), RecordText(sender, target)))
      ensures Went(old(disk.past), disk.past, old(disk.Content()), [disk.Content()])
    {
      ghost var file := disk.seqnums.value;
      SetNextSenderMsgSeqNum(sender);
      SetNextTargetMsgSeqNum(target);
      OverwrittenAgain(file, RecordText(sender, target), RecordText(sender, target));
    }

    method RemoveFiles()
      modifies disk
      ensures disk.Content() == NO_FILES
      ensures Went(old(disk.past), disk.past, old(disk.Content()), RemoveStages(old(disk.Content())))
    {
      ghost var files, p := disk.Content(), disk.past;
      disk.WriteBody(None);
      ghost var a, q := disk.Content(), disk.past;
      disk.WriteHeader(None);
      ghost var b, r := disk.Content(), disk.past;
      disk.WriteSeqNums(None);
      ghost var c, t := disk.Content(), disk.past;
      disk.WriteSession(None);
      WentAway(p, q, r, t, disk.past, files, a, b, c, disk.Content());
    }

    /** open: the outcome, and what the files go through. */
    method Open(deleteFile: bool) returns (ok: bool)
      requires IsTime(created)
      modifies this, disk
      ensures var r := Opened(if deleteFile then NO_FILES else old(disk.Content()), old(Kept()));
        ok == r.Some? && (ok ==> Current() == r.value)
      ensures old(Kept()) == NewMemory(old(created)) ==>
        Went(old(disk.past), disk.past, old(disk.Content()),
             if deleteFile then RemoveStages(old(disk.Content())) + OpenStops(NO_FILES, old(created))
             else OpenStops(old(disk.Content()), old(created)))
    {
      ghost var files, now, p := disk.Content(), created, disk.past;
      if deleteFile {
        RemoveFiles();
      }
      ghost var q := disk.past;
      ok := OpenWith(disk.Content(), Kept());
      if deleteFile && old(Kept()) == NewMemory(now) {
        WentOn(p, q, disk.past, files, RemoveStages(files), OpenStops(NO_FILES, now));
      }
    }

    /** open, after the files were deleted if they had to be. */
    method OpenWith(ghost files: Files, ghost m: Memory) returns (ok: bool)
      requires IsTime(created) && files == disk.Content() && m == Kept()
      modifies this, disk
      ensures ok == Opened(files, m).Some? && (ok ==> Current() == Opened(files, m).value)
      ensures m == NewMemory(m.created) ==> Went(old(disk.past), disk.past, files, OpenStops(files, m.created))
    {
      ok := PopulateCache();
      if ok {
        CompleteFiles(SessionText(m.created));
      }
      StopsAreStages(files, m.created);
    }

    method CompleteFiles(ghost session: seq<byte>)
      requires disk.session.None? ==> IsTime(created) && session == SessionText(created)
      modifies `sender, `target, disk
      ensures sender == old(sender) && target == old(target)
      ensures disk.Content() == Completed(old(disk.Content()), RecordText(sender, target), session)
      ensures Went(old(disk.past), disk.past, old(disk.Content()),
                   OpenStages(old(disk.Content()), RecordText(sender, target), session))
    {
      ghost var files, p := disk.Content(), disk.past;
      ghost var record := RecordText(sender, target);
      OpenFiles();
      ghost var q := disk.past;
      OpenSession();
      ghost var r := disk.past;
      RewriteCounters();
      CompletedStages(files, record, session, p, q, r, disk.past);
    }

    method SetNextSenderMsgSeqNum(value: SeqNum)
      requires IsOpen()
      modifies `sender, disk`seqnums, disk`past
      ensures Current() == old(WithCounters(Current(), Counters(value, target)))
      ensures Went(old(disk.past), disk.past, old(disk.Content()), [disk.Content()])
    {
      sender := value;
      SetSeqNum();
    }

    method SetNextTargetMsgSeqNum(value: SeqNum)
      requires IsOpen()
      modifies `target, disk`seqnums, disk`past
      ensures Current() == old(WithCounters(Current(), Counters(sender, value)))
      ensures Went(old(disk.past), disk.past, old(disk.Content()), [disk.Content()])
    {
      target := value;
      SetSeqNum();
    }

    method IncrNextSenderMsgSeqNum()
      requires IsOpen()
      modifies `sender, disk`seqnums, disk`past
      ensures Current() == old(WithCounters(Current(), Counters((sender + 1) % SEQNUMS, target)))
      ensures Went(old(disk.past), disk.past, old(disk.Content()), [disk.Content()])
    {
      sender := (sender + 1) % SEQNUMS;
      SetSeqNum();
    }

    method IncrNextTargetMsgSeqNum()
      requires IsOpen()
      modifies `target, disk`seqnums, disk`past
      ensures Current() == old(WithCounters(Current(), Counters(sender, (target + 1) % SEQNUMS)))
      ensures Went(old(disk.past), disk.past, old(disk.Content()), [disk.Content()])
    {
      target := (target + 1) % SEQNUMS;
      SetSeqNum();
    }

    /** set: the body is written first, then the header, and the index in memory last. */
    method Set(num: SeqNum, msg: seq<byte>)
      requires IsOpen()
      modifies `offsets, disk`body, disk`header, disk`past
      ensures Current() == WithMessage(old(Current()), num, msg)
      ensures var s := old(Current());
        Went(old(disk.past), disk.past, s.files, [SetStopped(s, num, msg, false), SetStopped(s, num, msg, true)])
    {
      ghost var s, p := Current(), disk.past;
      var offset := |disk.body.value|;
      disk.WriteBody(Some(disk.body.value + msg));
      ghost var q := disk.past;
      var e := LogEntry(num, offset, |msg|);
      disk.WriteHeader(Some(disk.header.value + EntryText(e)));
      offsets := Indexed(offsets, e);
      WentTwice(p, q, disk.past, s.files, SetStopped(s, num, msg, false), SetStopped(s, num, msg, true));
    }

    /** buffer, ended by a NUL, becomes a string. */
    method FromCString(buffer: seq<byte>) returns (msg: seq<byte>)
      ensures msg == CString(buffer)
    {
      var n := 0;
      while n < |buffer| && buffer[n] != 0
        invariant n <= |buffer| && forall i :: 0 <= i < n ==> buffer[i] != 0
      {
        n := n + 1;
      }
      CStringIs(buffer, n);
      msg := buffer[..n];
    }

    method GetOne(num: SeqNum) returns (r: Reading)
      requires disk.body.Some?
      ensures r == Read(offsets, disk.body.value, num)
    {
      if num !in offsets {
        return Missing;
      }
      var span := offsets[num];
      if span.size == 0 {
        return Found([]);
      }
      if span.offset + span.size > |disk.body.value| {
        return Failed;
      }
      var msg := FromCString(disk.body.value[span.offset..span.offset + span.size]);
      r := Found(msg);
    }

    /** get of a range; None for the exception. */
    method Get(begin: SeqNum, end: SeqNum) returns (result: Option<seq<seq<byte>>>)
      requires disk.body.Some?
      ensures result == ReadFrom(offsets, disk.body.value, begin, end)
    {
      var msgs := [];
      var i := begin;
      PrependedNone(ReadFrom(offsets, disk.body.value, begin, end));
      while i <= end && i != 0
        invariant 0 <= i < SEQNUMS
        invariant ReadFrom(offsets, disk.body.value, begin, end)
               == Prepended(msgs, ReadFrom(offsets, disk.body.value, i, end))
        decreases if i == 0 then 0 else SEQNUMS - i
      {
        var r := GetOne(i);
        if r.Failed? {
          return None;
        }
        PrependedStep(offsets, disk.body.value, i, end, msgs);
        msgs := msgs + if r.Found? then [r.msg] else [];
        i := (i + 1) % SEQNUMS;
      }
      assert ReadFrom(offsets, disk.body.value, i, end) == Some([]) && msgs + [] == msgs;
      result := Some(msgs);
    }

    /** m_cache.reset and m_offsets.clear */
    method ClearMemory(now: Stamp)
      modifies this
      ensures Kept() == NewMemory(now)
    {
      sender, target, created, offsets := 1, 1, now, map[];
    }

    method Reset(now: Stamp) returns (ok: bool)
      requires IsTime(now)
      modifies this, disk
      ensures ok && Current() == Fresh(now)
      ensures Went(old(disk.past), disk.past, old(disk.Content()), ResetStops(old(disk.Content()), now))
    {
      ghost var files, p := disk.Content(), disk.past;
      ClearMemory(now);
      ok := Open(true);
      OpenFresh(NewMemory(now));
      StopsOfReset(files, now);
      ghost var q := disk.past;
      SetSession();
      WentNowhere(p, q, disk.past, files, ResetStops(files, now), disk.Content());
    }

    method Refresh(now: Stamp) returns (ok: bool)
      requires IsTime(now)
      modifies this, disk
      ensures var r := Opened(old(disk.Content()), NewMemory(now));
        ok == r.Some? && (ok ==> Current() == r.value)
      ensures Went(old(disk.past), disk.past, old(disk.Content()), OpenStops(old(disk.Content()), now))
    {
      ClearMemory(now);
      ok := Open(false);
    }

    method InvokeCount(op: CounterCall)
      requires IsOpen()
      modifies `sender, `target, disk`seqnums, disk`past
      ensures Current() == old(WithCounters(Current(), Counted(op, Counters(sender, target))))
    {
      match op
      case SetSender(n) => SetNextSenderMsgSeqNum(n);
      case SetTarget(n) => SetNextTargetMsgSeqNum(n);
      case IncrSender => IncrNextSenderMsgSeqNum();
      case IncrTarget => IncrNextTargetMsgSeqNum();
    }

    /** The calls that change an open store. */
    method Invoke(c: Call) returns (ok: bool)
      requires IsOpen() && Timed(c) && (c.Set? || c.Count? || c.Reset? || c.Refresh?)
      modifies this, disk
      ensures Outcome(Called(old(Current()), c), ok, Current())
    {
      ghost var s := Current();
      ok := true;
      match c
      case Set(num, msg) =>
        Set(num, msg);
        assert Called(s, c) == Some(Current());
      case Count(op) =>
        InvokeCount(op);
        assert Called(s, c) == Some(Current());
      case Reset(now) =>
        ok := Reset(now);
        assert Called(s, c) == Some(Current());
      case Refresh(now) =>
        ok := Refresh(now);
        assert Called(s, c) == Opened(s.files, NewMemory(now));
    }
  }

  /** None when the call throws. */
  ghost predicate Outcome(r: Option<State>, ok: bool, s: State) {
    ok == r.Some? && (ok ==> s == r.value)
  }

  /** What the counter operations do: the record is replaced in place. */
  function WithCounters(s: State, c: Counters): (r: State)
    requires s.files.AllThere()
    ensures r.files.AllThere()
  {
    State(s.files.(seqnums := Some(Overwritten(s.files.seqnums.value, RecordText(c.sender, c.target)))),
          s.memory.(sender := c.sender, target := c.target))
  }

  /** What set does. */
  function WithMessage(s: State, num: SeqNum, msg: seq<byte>): (r: State)
    requires s.files.AllThere()
    ensures r.files.AllThere()
  {
    var e := LogEntry(num, |s.files.body.value|, |msg|);
    State(s.files.(body := Some(s.files.body.value + msg), header := Some(s.files.header.value + EntryText(e))),
          s.memory.(offsets := Indexed(s.memory.offsets, e)))
  }

  /** A store that was made anew: empty files, counters 1, the given time. */
  function Fresh(now: Stamp): (r: State)
    requires IsTime(now)
    ensures r.files.AllThere()
  {
    State(Emptied(NewMemory(now)), NewMemory(now))
  }

  function Emptied(m: Memory): Files
    requires IsTime(m.created)
  {
    Files(Some([]), Some([]), Some(RecordText(m.sender, m.target)), Some(SessionText(m.created)))
  }

  lemma OpenFresh(m: Memory)
    requires IsTime(m.created)
    ensures Opened(NO_FILES, m) == Some(State(Emptied(m), m))
    ensures Overwritten(SessionText(m.created), SessionText(m.created)) == SessionText(m.created)
  {
    ScanNothing();
    EmptyOverwritten(RecordText(m.sender, m.target));
  }

  lemma EmptyOverwritten(text: seq<byte>)
    ensures Overwritten([], text) == text
  {
  }

  lemma ScanNothing()
    ensures Scan([]) == []
  {
    assert ScanNumber([]).None?;
  }

  // ----- the map that the store implements

  /** What is known of the time of the last reset: no session file yet; one that is empty, so
      that every opening takes its own time; or the time. */
  datatype Creation = NoFile | Empty | At(time: Stamp)

  /** The messages stored since the last reset, the two counters, and the time of the reset;
      and whether a process has the store open. */
  datatype Plain = Plain(up: bool, messages: map<nat, seq<byte>>, sender: SeqNum, target: SeqNum, creation: Creation)

  /** Before there are any files. */
  const UNUSED: Plain := Plain(false, map[], 1, 1, NoFile)

  /** The index leads to the messages, and would be the same if it were read back. */
  ghost predicate Indexes(offsets: Index, header: seq<byte>, body: seq<byte>, messages: map<nat, seq<byte>>) {
    && header == HeaderText(Scan(header)) && offsets == Replayed(map[], Scan(header))
    && LeadsTo(offsets, body, messages)
  }

  ghost predicate LeadsTo(offsets: Index, body: seq<byte>, messages: map<nat, seq<byte>>) {
    && offsets.Keys == messages.Keys
    && forall n :: n in offsets ==> SpanHolds(body, offsets[n], messages[n])
  }

  /** An empty message is nowhere in the body. */
  ghost predicate SpanHolds(body: seq<byte>, span: Span, msg: seq<byte>) {
    && span.size == |msg|
    && (span.size > 0 ==> span.offset + span.size <= |body| && body[span.offset..span.offset + span.size] == msg)
  }

  /** The time in memory loses its fraction of a second when the files are opened again. */
  ghost predicate SameTime(t: Stamp, created: Stamp) {
    t == created || t == WholeSeconds(created)
  }

  /** A record of the counters, or none, and then they are 1. */
  ghost predicate RecordHolds(file: Option<seq<byte>>, c: Counters) {
    CountersIn(file, Counters(1, 1)) == c && |ContentOf(file)| <= RECORD_SIZE
  }

  ghost predicate SessionHolds(file: Option<seq<byte>>, creation: Creation) {
    match creation
    case NoFile => file.None?
    case Empty => file == Some([])
    case At(t) => IsTime(t) && file == Some(SessionText(t))
  }

  ghost predicate MessagesHold(files: Files, messages: map<nat, seq<byte>>) {
    var header := ContentOf(files.header);
    Indexes(Replayed(map[], Scan(header)), header, ContentOf(files.body), messages)
  }

  /** What the files hold, some of which may be missing. */
  ghost predicate Leaves(files: Files, m: Plain) {
    && MessagesHold(files, m.messages)
    && RecordHolds(files.seqnums, Counters(m.sender, m.target)) && SessionHolds(files.session, m.creation)
  }

  /** What an open store holds. */
  ghost predicate Keeps(s: State, m: Plain) {
    && s.files.AllThere() && Leaves(s.files, m)
    && Remembers(s.memory, Replayed(map[], Scan(s.files.header.value)), m)
  }

  ghost predicate Remembers(memory: Memory, offsets: Index, m: Plain) {
    && memory.offsets == offsets && memory.sender == m.sender && memory.target == m.target
    && (m.creation.At? ==> SameTime(memory.created, m.creation.time))
  }

  lemma StoredSpan(body: seq<byte>, span: Span, msg: seq<byte>, more: seq<byte>)
    requires SpanHolds(body, span, msg)
    ensures SpanHolds(body + more, span, msg)
  {
  }

  /** Bytes at the end of the body that no entry leads to do no harm. */
  lemma BodyGrows(offsets: Index, header: seq<byte>, body: seq<byte>, messages: map<nat, seq<byte>>, more: seq<byte>)
    requires Indexes(offsets, header, body, messages)
    ensures Indexes(offsets, header, body + more, messages)
  {
    forall n | n in offsets
      ensures SpanHolds(body + more, offsets[n], messages[n])
    {
      StoredSpan(body, offsets[n], messages[n], more);
    }
  }

  lemma HeaderGrows(header: seq<byte>, e: LogEntry)
    requires header == HeaderText(Scan(header))
    ensures Scan(header + EntryText(e)) == Scan(header) + [e]
    ensures header + EntryText(e) == HeaderText(Scan(header) + [e])
  {
    HeaderAppend(Scan(header), e);
    ScanHeaderText(Scan(header) + [e]);
  }

  /** Storing a message. */
  lemma MessageIndexed(offsets: Index, header: seq<byte>, body: seq<byte>, messages: map<nat, seq<byte>>,
                       num: nat, msg: seq<byte>, e: LogEntry)
    requires Indexes(offsets, header, body, messages) && e == LogEntry(num, |body|, |msg|)
    ensures Indexes(Indexed(offsets, e), header + EntryText(e), body + msg, messages[num := msg])
  {
    HeaderGrows(header, e);
    ReplayedAppend(map[], Scan(header), e);
    OneMoreSpan(offsets, body, messages, num, msg, e);
  }

  lemma OneMoreSpan(offsets: Index, body: seq<byte>, messages: map<nat, seq<byte>>, num: nat, msg: seq<byte>, e: LogEntry)
    requires LeadsTo(offsets, body, messages) && e == LogEntry(num, |body|, |msg|)
    ensures LeadsTo(Indexed(offsets, e), body + msg, messages[num := msg])
  {
    LastSpan(body, msg);
    var after := Indexed(offsets, e);
    forall n | n in after
      ensures SpanHolds(body + msg, after[n], messages[num := msg][n])
    {
      if n != num {
        StoredSpan(body, offsets[n], messages[n], msg);
      }
    }
  }

  lemma LastSpan(body: seq<byte>, msg: seq<byte>)
    ensures SpanHolds(body + msg, Span(|body|, |msg|), msg)
  {
  }

  // ----- opening files

  lemma SameRecord(s: seq<byte>, t: seq<byte>)
    requires |s| <= |t|
    ensures Overwritten(s, t) == t
  {
  }

  lemma RecordRewritten(file: seq<byte>, c: Counters)
    requires |file| <= RECORD_SIZE
    ensures RecordHolds(Some(Overwritten(file, RecordText(c.sender, c.target))), c)
  {
    SameRecord(file, RecordText(c.sender, c.target));
    RecordReads(c.sender, c.target);
  }

  /** A file that is longer than a record stays longer, so that it is read in the older format:
      a counter that is no int does not come back from it. */
  lemma LongRecordFails(file: seq<byte>, c: Counters)
    requires |file| > RECORD_SIZE && c.sender >= 0x8000_0000
    ensures ReadRecord(Overwritten(file, RecordText(c.sender, c.target))) == None
  {
    SeqNumFits(c.sender);
    SeqNumFits(c.target);
    var rest := BETWEEN + Fixed(c.target, 20);
    var r, tail := Overwritten(file, RecordText(c.sender, c.target)), file[RECORD_SIZE..];
    assert r == Fixed(c.sender, 20) + (rest + tail);
    ScanNumeral(Fixed(c.sender, 20), rest + tail);
  }

  lemma EmptyRecord(file: Option<seq<byte>>, c: Counters)
    requires RecordHolds(file, c)
    ensures RecordHolds(Some(ContentOf(file)), c)
  {
    assert ScanNumber([]).None?;
  }

  /** The time that a store takes from its session file, or from the opening. */
  lemma CreationHeld(file: Option<seq<byte>>, creation: Creation, now: Stamp)
    requires SessionHolds(file, creation)
    ensures CreationIn(file, now) == Some(if creation.At? then WholeSeconds(creation.time) else now)
  {
    match creation
    case NoFile =>
    case Empty => assert TokenRun([]) == 0;
    case At(t) => SessionReads(t);
  }

  /** What the plain store is once it is open. */
  function Begun(m: Plain, now: Stamp): Plain {
    m.(up := true, creation := if m.creation.NoFile? then At(now) else m.creation)
  }

  lemma PopulatedHolds(files: Files, m: Plain, now: Stamp)
    requires Leaves(files, m)
    ensures
      var p := Populated(files, NewMemory(now));
      p.Some? && Remembers(p.value, Replayed(map[], Scan(ContentOf(files.header))), Begun(m, now))
  {
    CreationHeld(files.session, m.creation, now);
  }

  lemma CompletedHolds(files: Files, m: Plain, now: Stamp)
    requires Leaves(files, m) && IsTime(now)
    ensures Leaves(Completed(files, RecordText(m.sender, m.target), SessionText(now)), Begun(m, now))
  {
    RecordRewritten(ContentOf(files.seqnums), Counters(m.sender, m.target));
  }

  /** Files of which none or some are missing open to the store that they hold. */
  lemma OpenedHolds(files: Files, m: Plain, now: Stamp)
    requires Leaves(files, m) && IsTime(now)
    ensures Opened(files, NewMemory(now)).Some? && Keeps(Opened(files, NewMemory(now)).value, Begun(m, now))
  {
    PopulatedHolds(files, m, now);
    CompletedHolds(files, m, now);
  }

  /** A session file that was made and not written stays empty, whenever the files are opened;
      the store then takes the time of the opening for its creation. */
  lemma SessionStaysEmpty(files: Files, m: Plain, now: Stamp)
    requires Leaves(files, m) && m.creation.Empty? && IsTime(now)
    ensures
      var r := Opened(files, NewMemory(now));
      r.Some? && r.value.memory.created == now && r.value.files.session == Some([]) && Keeps(r.value, m.(up := true))
  {
    CreationHeld(files.session, m.creation, now);
    OpenedHolds(files, m, now);
  }

  // ----- where a process can stop

  /** The files that an opening at the given time leaves when it stops. When the files cannot
      be read, nothing is made. */
  function OpenStopped(files: Files, stop: OpenStop, now: Stamp): Files
    requires IsTime(now)
  {
    var p := Populated(files, NewMemory(now));
    if p.None? then files
    else OpenStage(files, stop, RecordText(p.value.sender, p.value.target), SessionText(now))
  }

  /** The places where an opening can stop, in the order in which it gets there. */
  function OpenStops(files: Files, now: Stamp): seq<Files>
    requires IsTime(now)
  {
    [OpenStopped(files, BodyMade, now), OpenStopped(files, HeaderMade, now), OpenStopped(files, RecordMade, now),
     OpenStopped(files, SessionMade, now), OpenStopped(files, SessionWritten, now), OpenStopped(files, RecordWritten, now)]
  }

  lemma {:induction false} NothingChanges(files: Files, stages: seq<Files>)
    requires forall i :: 0 <= i < |stages| ==> stages[i] == files
    ensures Changes(files, stages) == []
    decreases |stages|
  {
    if stages != [] {
      NothingChanges(files, stages[1..]);
    }
  }

  lemma StopsAreStages(files: Files, now: Stamp)
    requires IsTime(now)
    ensures
      var p := Populated(files, NewMemory(now));
      if p.None? then Changes(files, OpenStops(files, now)) == []
      else OpenStops(files, now) == OpenStages(files, RecordText(p.value.sender, p.value.target), SessionText(now))
  {
    var p := Populated(files, NewMemory(now));
    if p.None? {
      NothingChanges(files, OpenStops(files, now));
    } else {
      StagesAre(files, RecordText(p.value.sender, p.value.target), SessionText(now));
    }
  }

  lemma StagesAre(files: Files, record: seq<byte>, session: seq<byte>)
    ensures OpenStages(files, record, session)
         == [OpenStage(files, BodyMade, record, session), OpenStage(files, HeaderMade, record, session),
             OpenStage(files, RecordMade, record, session), OpenStage(files, SessionMade, record, session),
             OpenStage(files, SessionWritten, record, session), OpenStage(files, RecordWritten, record, session)]
  {
  }

  /** What they hold: all that they held, and perhaps a session file. */
  function PlainOpenStopped(m: Plain, stop: OpenStop, now: Stamp): Plain {
    if m.creation.NoFile? then
      m.(up := false, creation := match stop
                                  case SessionMade => Empty
                                  case SessionWritten => At(now)
                                  case RecordWritten => At(now)
                                  case _ => NoFile)
    else m.(up := false)
  }

  lemma EndHolds(files: Files, m: Plain)
    requires Leaves(files, m)
    ensures Leaves(files, m.(up := false))
  {
  }

  /** Files that are made are empty; the others are as they were. */
  lemma MadeHolds(files: Files, r: Files, m: Plain, creation: Creation)
    requires Leaves(files, m) && ContentOf(r.body) == ContentOf(files.body) && ContentOf(r.header) == ContentOf(files.header)
    requires r.seqnums == files.seqnums || r.seqnums == Some(ContentOf(files.seqnums))
    requires SessionHolds(r.session, creation)
    ensures Leaves(r, m.(up := false, creation := creation))
  {
    EmptyRecord(files.seqnums, Counters(m.sender, m.target));
  }

  lemma SessionStopped(files: Files, m: Plain, stop: OpenStop, now: Stamp)
    requires SessionHolds(files.session, m.creation) && IsTime(now) && stop != RecordWritten
    ensures SessionHolds(OpenStopped(files, stop, now).session, PlainOpenStopped(m, stop, now).creation)
  {
    CreationHeld(files.session, m.creation, now);
  }

  lemma OpenStoppedHolds(files: Files, m: Plain, stop: OpenStop, now: Stamp)
    requires Leaves(files, m) && IsTime(now)
    ensures Leaves(OpenStopped(files, stop, now), PlainOpenStopped(m, stop, now))
  {
    PopulatedHolds(files, m, now);
    if stop == RecordWritten {
      CompletedHolds(files, m, now);
      EndHolds(OpenStopped(files, stop, now), Begun(m, now));
    } else {
      SessionStopped(files, m, stop, now);
      MadeHolds(files, OpenStopped(files, stop, now), m, PlainOpenStopped(m, stop, now).creation);
    }
  }

  /** Within reset: between the removals of the four files, after the last of them, and within
      the opening that follows. */
  datatype ResetStop = NoBody | NoHeader | NoRecord | NoSession | Making(stop: OpenStop)

  function ResetStopped(files: Files, stop: ResetStop, now: Stamp): Files
    requires IsTime(now)
  {
    match stop
    case NoBody => files.(body := None)
    case NoHeader => files.(body := None, header := None)
    case NoRecord => NO_FILES.(session := files.session)
    case NoSession => NO_FILES
    case Making(open) => OpenStopped(NO_FILES, open, now)
  }

  function RemoveStages(files: Files): seq<Files> {
    [files.(body := None), files.(body := None, header := None), NO_FILES.(session := files.session), NO_FILES]
  }

  /** The places where a reset can stop, in the order in which it gets there. */
  function ResetStops(files: Files, now: Stamp): seq<Files>
    requires IsTime(now)
  {
    [ResetStopped(files, NoBody, now), ResetStopped(files, NoHeader, now),
     ResetStopped(files, NoRecord, now), ResetStopped(files, NoSession, now),
     ResetStopped(files, Making(BodyMade), now), ResetStopped(files, Making(HeaderMade), now),
     ResetStopped(files, Making(RecordMade), now), ResetStopped(files, Making(SessionMade), now),
     ResetStopped(files, Making(SessionWritten), now), ResetStopped(files, Making(RecordWritten), now)]
  }

  lemma StopsOfReset(files: Files, now: Stamp)
    requires IsTime(now)
    ensures RemoveStages(files) + OpenStops(NO_FILES, now) == ResetStops(files, now)
  {
  }

  /** What these hold, but for the first, where the messages are lost. */
  function PlainResetStopped(m: Plain, stop: ResetStop, now: Stamp): Plain {
    match stop
    case NoBody => m.(up := false)
    case NoHeader => m.(up := false, messages := map[])
    case NoRecord => UNUSED.(creation := m.creation)
    case NoSession => UNUSED
    case Making(open) => PlainOpenStopped(UNUSED, open, now)
  }

  ghost predicate AllEmpty(messages: map<nat, seq<byte>>) {
    forall n :: n in messages ==> messages[n] == []
  }

  lemma NothingHeld()
    ensures MessagesHold(NO_FILES, map[]) && RecordHolds(None, Counters(1, 1))
  {
    ScanNothing();
  }

  /** Without its body the index leads to the messages if and only if all are empty. */
  lemma BodyGone(offsets: Index, body: seq<byte>, messages: map<nat, seq<byte>>)
    requires LeadsTo(offsets, body, messages)
    ensures LeadsTo(offsets, [], messages) <==> AllEmpty(messages)
  {
    forall n | n in offsets
      ensures SpanHolds([], offsets[n], messages[n]) <==> messages[n] == []
    {
      assert SpanHolds(body, offsets[n], messages[n]);
    }
  }

  /** At every place within reset but the first, a stop leaves files that hold what is said;
      at the first it does if and only if all messages are empty. */
  lemma ResetStopHolds(files: Files, m: Plain, stop: ResetStop, now: Stamp)
    requires Leaves(files, m) && IsTime(now)
    ensures Leaves(ResetStopped(files, stop, now), PlainResetStopped(m, stop, now))
       <==> (stop.NoBody? ==> AllEmpty(m.messages))
  {
    NothingHeld();
    match stop
    case NoBody => BodyGone(Replayed(map[], Scan(ContentOf(files.header))), ContentOf(files.body), m.messages);
    case Making(open) => OpenStoppedHolds(NO_FILES, UNUSED, open, now);
    case _ =>
  }

  // ----- runs

  datatype CounterCall = SetSender(value: SeqNum) | SetTarget(value: SeqNum) | IncrSender | IncrTarget

  function Counted(op: CounterCall, c: Counters): Counters {
    match op
    case SetSender(n) => c.(sender := n)
    case SetTarget(n) => c.(target := n)
    case IncrSender => c.(sender := (c.sender + 1) % SEQNUMS)
    case IncrTarget => c.(target := (c.target + 1) % SEQNUMS)
  }

  /** A process has the store open, or there are only files. */
  datatype System = Up(state: State) | Down(files: Files)

  /** The calls on an open store; the ends of its process, between calls or within one, after
      the body or the index was written or wherever a reset or an opening can stop; and the
      opening by a process, the first or a later one. */
  datatype Call =
    | Set(num: SeqNum, msg: seq<byte>)
    | Count(op: CounterCall)
    | Reset(now: Stamp)
    | Refresh(now: Stamp)
    | Stop
    | StopInSet(num: SeqNum, msg: seq<byte>, indexed: bool)
    | StopInReset(stop: ResetStop, now: Stamp)
    | Open(now: Stamp)
    | StopInOpen(where: OpenStop, now: Stamp)

  predicate Timed(c: Call) {
    c.Reset? || c.Refresh? || c.StopInReset? || c.Open? || c.StopInOpen? ==> IsTime(c.now)
  }

  function UpIf(s: Option<State>): (r: Option<System>) {
    if s.Some? then Some(Up(s.value)) else None
  }

  /** What a call does to an open store; None when it throws. An opening of one that is open
      is none. */
  function UpStep(s: State, c: Call): Option<System>
    requires s.files.AllThere() && Timed(c)
  {
    if Stays(c) then UpIf(Called(s, c)) else Some(Down(Stopped(s, c)))
  }

  function Called(s: State, c: Call): Option<State>
    requires s.files.AllThere() && Timed(c) && Stays(c)
  {
    match c
    case Set(num, msg) => Some(WithMessage(s, num, msg))
    case Count(op) => Some(WithCounters(s, Counted(op, Counters(s.memory.sender, s.memory.target))))
    case Reset(now) => Some(Fresh(now))
    case Refresh(now) => Opened(s.files, NewMemory(now))
    case Open(_) => Some(s)
  }

  /** The calls after which the store is still open. */
  predicate Stays(c: Call) {
    c.Set? || c.Count? || c.Reset? || c.Refresh? || c.Open?
  }

  /** The files that are left when the process ends. */
  function Stopped(s: State, c: Call): Files
    requires s.files.AllThere() && Timed(c) && !Stays(c)
  {
    match c
    case Stop => s.files
    case StopInSet(num, msg, indexed) => SetStopped(s, num, msg, indexed)
    case StopInReset(stop, now) => ResetStopped(s.files, stop, now)
    case StopInOpen(stop, now) => OpenStopped(s.files, stop, now)
  }

  /** And what it does to the files; most calls need an open store. */
  function DownStep(files: Files, c: Call): Option<System>
    requires Timed(c)
  {
    match c
    case Open(now) => UpIf(Opened(files, NewMemory(now)))
    case StopInOpen(stop, now) => Some(Down(OpenStopped(files, stop, now)))
    case _ => Some(Down(files))
  }

  /** The files that a set leaves when it stops after the body or after the index is written. */
  function SetStopped(s: State, num: SeqNum, msg: seq<byte>, indexed: bool): Files
    requires s.files.AllThere()
  {
    if indexed then WithMessage(s, num, msg).files else s.files.(body := Some(s.files.body.value + msg))
  }

  function PlainSetStopped(m: Plain, num: SeqNum, msg: seq<byte>, indexed: bool): Plain {
    m.(up := false, messages := if indexed then m.messages[num := msg] else m.messages)
  }

  predicate IsWhole(s: System) {
    s.Up? ==> s.state.files.AllThere()
  }

  function Step(s: System, c: Call): (r: Option<System>)
    requires IsWhole(s) && Timed(c)
    ensures r.Some? ==> IsWhole(r.value)
  {
    if s.Up? then UpStep(s.state, c) else DownStep(s.files, c)
  }

  /** Counting of 64 bits. */
  function OneMore(n: SeqNum): SeqNum {
    if n == 0xFFFF_FFFF_FFFF_FFFF then 0 else n + 1
  }

  lemma CountedIs(m: Plain, op: CounterCall)
    ensures PlainUp(m, Count(op))
         == m.(sender := Counted(op, Counters(m.sender, m.target)).sender,
               target := Counted(op, Counters(m.sender, m.target)).target)
  {
  }

  /** What a call does to the map and the counters. */
  function PlainUp(m: Plain, c: Call): Plain {
    match c
    case Set(num, msg) => m.(messages := m.messages[num := msg])
    case Count(SetSender(n)) => m.(sender := n)
    case Count(SetTarget(n)) => m.(target := n)
    case Count(IncrSender) => m.(sender := OneMore(m.sender))
    case Count(IncrTarget) => m.(target := OneMore(m.target))
    case Reset(now) => Begun(UNUSED, now)
    case Refresh(_) => m
    case Stop => m.(up := false)
    case StopInSet(num, msg, indexed) => PlainSetStopped(m, num, msg, indexed)
    case StopInReset(stop, now) => PlainResetStopped(m, stop, now)
    case Open(_) => m
    case StopInOpen(stop, now) => m.(up := false)
  }

  function PlainDown(m: Plain, c: Call): Plain {
    match c
    case Open(now) => Begun(m, now)
    case StopInOpen(stop, now) => PlainOpenStopped(m, stop, now)
    case _ => m
  }

  function PlainStep(m: Plain, c: Call): Plain {
    if m.up then PlainUp(m, c) else PlainDown(m, c)
  }

  /** No reset stops between the removals of body and index, unless all messages are empty. */
  ghost predicate Harmless(m: Plain, c: Call) {
    m.up && c.StopInReset? && c.stop.NoBody? ==> AllEmpty(m.messages)
  }

  ghost predicate Holds(s: System, m: Plain) {
    match s
    case Up(state) => m.up && !m.creation.NoFile? && Keeps(state, m)
    case Down(files) => !m.up && Leaves(files, m)
  }

  lemma CountersKept(s: State, m: Plain, c: Counters)
    requires Keeps(s, m)
    ensures Keeps(WithCounters(s, c), m.(sender := c.sender, target := c.target))
  {
    RecordRewritten(s.files.seqnums.value, c);
  }

  lemma MessageKept(s: State, m: Plain, num: SeqNum, msg: seq<byte>)
    requires Keeps(s, m)
    ensures Keeps(WithMessage(s, num, msg), m.(messages := m.messages[num := msg]))
  {
    MessageIndexed(s.memory.offsets, s.files.header.value, s.files.body.value, m.messages, num, msg,
                   LogEntry(num, |s.files.body.value|, |msg|));
  }

  lemma SetStoppedHolds(s: State, m: Plain, num: SeqNum, msg: seq<byte>, indexed: bool)
    requires Keeps(s, m)
    ensures Leaves(SetStopped(s, num, msg, indexed), PlainSetStopped(m, num, msg, indexed))
  {
    if indexed {
      MessageKept(s, m, num, msg);
      EndHolds(WithMessage(s, num, msg).files, m.(messages := m.messages[num := msg]));
    } else {
      BodyGrows(s.memory.offsets, s.files.header.value, s.files.body.value, m.messages, msg);
    }
  }

  lemma FreshKeeps(now: Stamp)
    requires IsTime(now)
    ensures Keeps(Fresh(now), Begun(UNUSED, now))
  {
    NothingHeld();
    OpenFresh(NewMemory(now));
    OpenedHolds(NO_FILES, UNUSED, now);
  }

  lemma CalledKeeps(s: State, m: Plain, c: Call)
    requires m.up && !m.creation.NoFile? && Keeps(s, m) && Timed(c) && Stays(c)
    ensures Called(s, c).Some? && Keeps(Called(s, c).value, PlainUp(m, c))
  {
    if c.Set? {
      MessageKept(s, m, c.num, c.msg);
    } else if c.Count? {
      CountersKept(s, m, Counted(c.op, Counters(m.sender, m.target)));
      CountedIs(m, c.op);
    } else {
      OpeningKeeps(s, m, c);
    }
  }

  lemma OpeningKeeps(s: State, m: Plain, c: Call)
    requires m.up && !m.creation.NoFile? && Keeps(s, m) && Timed(c) && (c.Reset? || c.Refresh? || c.Open?)
    ensures Called(s, c).Some? && Keeps(Called(s, c).value, PlainUp(m, c))
  {
    match c
    case Reset(now) => ResetCalled(s, m, now);
    case Refresh(now) => RefreshCalled(s, m, now);
    case Open(now) => assert Called(s, c) == Some(s) && PlainUp(m, c) == m;
  }

  lemma ResetCalled(s: State, m: Plain, now: Stamp)
    requires s.files.AllThere() && IsTime(now)
    ensures Called(s, Reset(now)).Some? && Keeps(Called(s, Reset(now)).value, PlainUp(m, Reset(now)))
  {
    FreshKeeps(now);
  }

  lemma RefreshCalled(s: State, m: Plain, now: Stamp)
    requires m.up && !m.creation.NoFile? && s.files.AllThere() && Leaves(s.files, m) && IsTime(now)
    ensures Called(s, Refresh(now)).Some? && Keeps(Called(s, Refresh(now)).value, PlainUp(m, Refresh(now)))
  {
    RefreshIs(s, m, now);
    RefreshKeeps(s.files, m, now);
  }

  lemma RefreshIs(s: State, m: Plain, now: Stamp)
    requires s.files.AllThere() && IsTime(now)
    ensures Called(s, Refresh(now)) == Opened(s.files, NewMemory(now)) && PlainUp(m, Refresh(now)) == m
  {
  }

  lemma RefreshKeeps(files: Files, m: Plain, now: Stamp)
    requires m.up && !m.creation.NoFile? && Leaves(files, m) && IsTime(now)
    ensures Opened(files, NewMemory(now)).Some? && Keeps(Opened(files, NewMemory(now)).value, m)
  {
    OpenedHolds(files, m, now);
    assert Begun(m, now) == m;
  }

  lemma StillUp(m: Plain, c: Call)
    requires m.up && !m.creation.NoFile? && Stays(c)
    ensures PlainUp(m, c).up && !PlainUp(m, c).creation.NoFile?
  {
  }

  lemma StopLeaves(s: State, m: Plain, c: Call)
    requires m.up && !m.creation.NoFile? && Keeps(s, m) && Timed(c) && !Stays(c) && Harmless(m, c)
    ensures Leaves(Stopped(s, c), PlainUp(m, c))
  {
    match c
    case Stop => EndHolds(s.files, m);
    case StopInSet(num, msg, indexed) => SetStoppedHolds(s, m, num, msg, indexed);
    case StopInReset(stop, now) => ResetStopHolds(s.files, m, stop, now);
    case StopInOpen(stop, now) => OpenStoppedHolds(s.files, m, stop, now);
  }

  lemma UpKeeps(s: State, m: Plain, c: Call)
    requires m.up && !m.creation.NoFile? && Keeps(s, m) && Timed(c) && Harmless(m, c)
    ensures UpStep(s, c).Some? && Holds(UpStep(s, c).value, PlainUp(m, c))
  {
    if Stays(c) {
      CalledKeeps(s, m, c);
      StillUp(m, c);
    } else {
      StopLeaves(s, m, c);
      EndsDown(m, c);
    }
  }

  lemma EndsDown(m: Plain, c: Call)
    requires !Stays(c)
    ensures !PlainUp(m, c).up
  {
  }

  lemma DownKeeps(files: Files, m: Plain, c: Call)
    requires !m.up && Leaves(files, m) && Timed(c)
    ensures DownStep(files, c).Some? && Holds(DownStep(files, c).value, PlainDown(m, c))
  {
    if c.Open? {
      OpenedUp(files, m, c.now);
    } else if c.StopInOpen? {
      OpenStoppedHolds(files, m, c.where, c.now);
    }
  }

  lemma OpenedUp(files: Files, m: Plain, now: Stamp)
    requires Leaves(files, m) && IsTime(now)
    ensures var s := UpIf(Opened(files, NewMemory(now))); s.Some? && Holds(s.value, Begun(m, now))
  {
    OpenedHolds(files, m, now);
  }

  /** No call throws, and each does to the store what it does to the map. */
  lemma StepKeeps(s: System, m: Plain, c: Call)
    requires IsWhole(s) && Holds(s, m) && Timed(c) && Harmless(m, c)
    ensures Step(s, c).Some? && Holds(Step(s, c).value, PlainStep(m, c))
  {
    match s
    case Up(state) => UpKeeps(state, m, c);
    case Down(files) => DownKeeps(files, m, c);
  }

  ghost predicate AllTimed(calls: seq<Call>) {
    forall c :: c in calls ==> Timed(c)
  }

  /** A run from where there are no files; None when a call throws. */
  function Run(calls: seq<Call>): (s: Option<System>)
    requires AllTimed(calls)
    ensures s.Some? ==> IsWhole(s.value)
  {
    if calls == [] then Some(Down(NO_FILES))
    else
      var before := Run(calls[..|calls| - 1]);
      if before.None? then None else Step(before.value, calls[|calls| - 1])
  }

  function PlainRun(calls: seq<Call>): Plain {
    if calls == [] then UNUSED else PlainStep(PlainRun(calls[..|calls| - 1]), calls[|calls| - 1])
  }

  ghost predicate HarmlessRun(calls: seq<Call>) {
    calls == [] || (HarmlessRun(calls[..|calls| - 1]) && Harmless(PlainRun(calls[..|calls| - 1]), calls[|calls| - 1]))
  }

  /** Over every run no call throws, and the store and its files hold what the map holds. */
  lemma {:induction false} RunKeeps(calls: seq<Call>)
    requires AllTimed(calls) && HarmlessRun(calls)
    ensures Run(calls).Some? && Holds(Run(calls).value, PlainRun(calls))
  {
    if calls == [] {
      NothingHeld();
    } else {
      var before := calls[..|calls| - 1];
      RunKeeps(before);
      StepKeeps(Run(before).value, PlainRun(before), calls[|calls| - 1]);
    }
  }

  // ----- what get returns

  /** The numbers of the messages in a range, ascending. */
  function Numbers(messages: map<nat, seq<byte>>, begin: nat, end: nat): (ns: seq<nat>)
    ensures forall n :: n in ns <==> begin <= n <= end && n in messages
    ensures forall i, j :: 0 <= i < j < |ns| ==> ns[i] < ns[j]
    decreases end + 1 - begin
  {
    if begin > end then [] else
      var later := Numbers(messages, begin + 1, end);
      assert forall i :: 0 <= i < |later| ==> later[i] in later;
      if begin in messages then [begin] + later else later
  }

  function MessagesAt(messages: map<nat, seq<byte>>, ns: seq<nat>): seq<seq<byte>>
    requires forall n :: n in ns ==> n in messages
  {
    seq(|ns|, i requires 0 <= i < |ns| => CString(messages[ns[i]]))
  }

  lemma ReadIs(offsets: Index, body: seq<byte>, messages: map<nat, seq<byte>>, num: nat)
    requires LeadsTo(offsets, body, messages)
    ensures Read(offsets, body, num) == if num in messages then Found(CString(messages[num])) else Missing
  {
    assert num in offsets ==> SpanHolds(body, offsets[num], messages[num]);
  }

  lemma NoMessages(messages: map<nat, seq<byte>>)
    ensures MessagesAt(messages, []) == []
  {
  }

  lemma OneMoreMessage(messages: map<nat, seq<byte>>, n: nat, later: seq<nat>)
    requires n in messages && forall k :: k in later ==> k in messages
    ensures MessagesAt(messages, [n] + later) == [CString(messages[n])] + MessagesAt(messages, later)
  {
  }

  lemma NextNumber(i: SeqNum)
    ensures (i + 1) % SEQNUMS == if i + 1 < SEQNUMS then i + 1 else 0
  {
  }

  /** The step of get: the number itself, and then the rest of the range. */
  lemma ReadStep(offsets: Index, body: seq<byte>, messages: map<nat, seq<byte>>, i: SeqNum, end: SeqNum)
    requires LeadsTo(offsets, body, messages) && i != 0 && i <= end
    requires ReadFrom(offsets, body, (i + 1) % SEQNUMS, end) == Some(MessagesAt(messages, Numbers(messages, i + 1, end)))
    ensures ReadFrom(offsets, body, i, end) == Some(MessagesAt(messages, Numbers(messages, i, end)))
  {
    ReadIs(offsets, body, messages, i);
    var later := Numbers(messages, i + 1, end);
    if i in messages {
      OneMoreMessage(messages, i, later);
    } else {
      assert [] + MessagesAt(messages, later) == MessagesAt(messages, later);
    }
  }

  lemma {:induction false} ReadFromIs(offsets: Index, body: seq<byte>, messages: map<nat, seq<byte>>, i: SeqNum, end: SeqNum)
    requires LeadsTo(offsets, body, messages) && i != 0
    ensures ReadFrom(offsets, body, i, end) == Some(MessagesAt(messages, Numbers(messages, i, end)))
    decreases SEQNUMS - i
  {
    NoMessages(messages);
    NextNumber(i);
    if i <= end {
      if i + 1 < SEQNUMS {
        ReadFromIs(offsets, body, messages, i + 1, end);
      }
      ReadStep(offsets, body, messages, i, end);
    }
  }

  /** After every run, get lists the last message stored under each number since the last
      reset, by ascending number, as far as its first NUL; but nothing from number 0 on. */
  lemma GetAfterRun(calls: seq<Call>, begin: SeqNum, end: SeqNum)
    requires AllTimed(calls) && HarmlessRun(calls) && PlainRun(calls).up
    ensures Run(calls).Some? && Run(calls).value.Up?
    ensures
      var s, m := Run(calls).value.state, PlainRun(calls);
      ReadFrom(s.memory.offsets, s.files.body.value, begin, end)
        == Some(if begin == 0 then [] else MessagesAt(m.messages, Numbers(m.messages, begin, end)))
  {
    RunKeeps(calls);
    var s, m := Run(calls).value.state, PlainRun(calls);
    if begin != 0 {
      ReadFromIs(s.memory.offsets, s.files.body.value, m.messages, begin, end);
    }
  }

  // ----- the stop within reset that does harm

  /** Some message in the range is not empty. */
  ghost predicate SomeText(messages: map<nat, seq<byte>>, begin: nat, end: nat) {
    exists n :: begin <= n <= end && n in messages && messages[n] != []
  }

  lemma ReadWithoutBody(offsets: Index, body: seq<byte>, messages: map<nat, seq<byte>>, num: nat)
    requires LeadsTo(offsets, body, messages)
    ensures Read(offsets, [], num).Failed? <==> num in messages && messages[num] != []
  {
    assert num in offsets ==> SpanHolds(body, offsets[num], messages[num]);
  }

  lemma {:induction false} RangeWithoutBody(offsets: Index, body: seq<byte>, messages: map<nat, seq<byte>>, i: SeqNum, end: SeqNum)
    requires LeadsTo(offsets, body, messages) && i != 0
    ensures ReadFrom(offsets, [], i, end) == None <==> SomeText(messages, i, end)
    decreases SEQNUMS - i
  {
    if i <= end {
      ReadWithoutBody(offsets, body, messages, i);
      NextNumber(i);
      if i + 1 < SEQNUMS {
        RangeWithoutBody(offsets, body, messages, i + 1, end);
        assert SomeText(messages, i, end) <==> (i in messages && messages[i] != []) || SomeText(messages, i + 1, end);
      }
    }
  }

  lemma OpenedWithoutBody(s: State, m: Plain, now: Stamp, later: Stamp)
    requires Keeps(s, m) && !m.creation.NoFile? && IsTime(now) && IsTime(later)
    ensures
      var r := Opened(ResetStopped(s.files, NoBody, now), NewMemory(later));
      r.Some? && r.value.files.body == Some([]) && r.value.files.header == s.files.header
      && Remembers(r.value.memory, s.memory.offsets, m)
  {
    PopulatedHolds(s.files, m, later);
    assert Populated(s.files.(body := None), NewMemory(later)) == Populated(s.files, NewMemory(later));
  }

  /** With the body removed and the index not, index and counters come back; the store holds
      what it held if and only if all messages are empty, and get of a range throws if and only
      if a message in it is not. */
  lemma StopWithinReset(s: State, m: Plain, now: Stamp, later: Stamp, begin: SeqNum, end: SeqNum)
    requires m.up && Keeps(s, m) && !m.creation.NoFile? && IsTime(now) && IsTime(later) && begin != 0
    ensures
      var r := Opened(ResetStopped(s.files, NoBody, now), NewMemory(later));
      && r.Some? && r.value.files.body == Some([]) && Remembers(r.value.memory, s.memory.offsets, m)
      && (Keeps(r.value, m) <==> AllEmpty(m.messages))
      && (ReadFrom(r.value.memory.offsets, [], begin, end) == None <==> SomeText(m.messages, begin, end))
  {
    OpenedWithoutBody(s, m, now, later);
    RangeWithoutBody(s.memory.offsets, s.files.body.value, m.messages, begin, end);
    BodyGone(s.memory.offsets, s.files.body.value, m.messages);
    if AllEmpty(m.messages) {
      ResetStopHolds(s.files, m, NoBody, now);
      OpenedHolds(ResetStopped(s.files, NoBody, now), m.(up := false), later);
    }
  }

  /** A message that is stored then may make the body long enough for an old entry of the
      index, and get of the old number returns a piece of the new message. */
  lemma ReadsTheWrongMessage(s: State, first: SeqNum, num: SeqNum, msg: seq<byte>)
    requires s.files.AllThere() && s.files.body.value == [] && first in s.memory.offsets && first != num
    requires InText(msg, s.memory.offsets[first])
    ensures
      var r := WithMessage(s, num, msg);
      r.files.body.value == msg && Read(r.memory.offsets, msg, first) == Found(CString(PieceOf(msg, s.memory.offsets[first])))
  {
    assert [] + msg == msg;
    ReadPiece(s.memory.offsets, LogEntry(num, 0, |msg|), msg, first);
  }

  predicate InText(text: seq<byte>, span: Span) {
    0 < span.size && span.offset + span.size <= |text|
  }

  function PieceOf(text: seq<byte>, span: Span): seq<byte>
    requires InText(text, span)
  {
    text[span.offset..span.offset + span.size]
  }

  lemma ReadPiece(offsets: Index, e: LogEntry, body: seq<byte>, num: nat)
    requires num in offsets && num != e.num && InText(body, offsets[num])
    ensures Read(Indexed(offsets, e), body, num) == Found(CString(PieceOf(body, offsets[num])))
  {
  }
}
