/**
 The socket server: one message loop per connection, all driving one tracker
 whose operations are atomic. First a loop on its own, then any interleaving.
 */
module Server {
  import opened Prelude
  import opened Strikes
  import opened FailureLog

  /** A line after JSON decoding. */
  datatype Line = Blank | BadJson | Message(kind: string, ip: string, domain: string, reason: string)

  datatype Response = Response(strikeCount: nat, blocked: bool, message: string)

  ghost predicate LineOk(line: Line) {
    line.Message? ==> IsDomain(line.domain)
  }

  /** What one line needs besides its text: the two clock readings and the commands of a block. */
  datatype Moment = Moment(now: int, blockNow: int, f: BlockFaults)

  /** The tracker operation that a line calls. */
  function EventOf(line: Line, m: Moment): Option<Event> {
    if line.Message? && line.kind == "failure"
      then Some(Failure(line.ip, line.domain, line.reason, m.now, m.blockNow, m.f))
    else if line.Message? && line.kind == "success" then Some(Success(line.ip, line.domain))
    else None
  }

  /** The answer to a non-empty line, given the state it meets. */
  function ReplyTo(s: State, line: Line, m: Moment): Response
    requires StateOk(s)
  {
    if !line.Message? then Response(0, false, "invalid JSON")
    else if line.kind == "failure" then
      var (_, count, blocked) := FailureSpec(s, line.ip, line.domain, line.reason, m.now, m.blockNow, m.f);
      Response(count, blocked, "")
    else if line.kind == "success" then Response(0, false, "")
    else Response(0, false, "unknown message type")
  }

  // ---------- one connection ----------

  function StepLine(s: State, line: Line, m: Moment): (r: State)
    requires StateOk(s) && LineOk(line) && s.up
    ensures StateOk(r) && r.up
  {
    match EventOf(line, m)
    case None => s
    case Some(e) => StepOk(s, e); Step(s, e)
  }

  /** A blank line gets no response. */
  function Replies(s: State, line: Line, m: Moment): seq<Response>
    requires StateOk(s)
  {
    if line.Blank? then [] else [ReplyTo(s, line, m)]
  }

  ghost predicate LinesOk(lines: seq<Line>) {
    forall i :: 0 <= i < |lines| ==> LineOk(lines[i])
  }

  /** The state after the lines, and the responses, one for each that is not blank. */
  function Serve(s: State, lines: seq<Line>, at: seq<Moment>): (r: (State, seq<Response>))
    requires StateOk(s) && s.up && LinesOk(lines) && |lines| == |at|
    ensures StateOk(r.0) && r.0.up
    decreases |lines|
  {
    if lines == [] then (s, []) else
      var n := |lines| - 1;
      var (s1, out) := Serve(s, lines[..n], at[..n]);
      (StepLine(s1, lines[n], at[n]), out + Replies(s1, lines[n], at[n]))
  }

  class Connection {
    const tracker: Tracker
    var sent: seq<Response>

    constructor (tracker: Tracker)
      ensures this.tracker == tracker && sent == []
    {
      this.tracker, sent := tracker, [];
    }

    method HandleMessage(msg: Line, m: Moment)
      requires tracker.Valid() && msg.Message? && LineOk(msg)
      modifies this, tracker, tracker.db, tracker.ipsetMgr, tracker.ipsetMgr.fw
      ensures tracker.Valid() && tracker.Machine() == StepLine(old(tracker.Machine()), msg, m)
      ensures sent == old(sent) + [ReplyTo(old(tracker.Machine()), msg, m)]
    {
      if msg.kind == "failure" {
        var strikeCount, blocked := tracker.RecordFailure(msg.ip, msg.domain, msg.reason, m.now, m.blockNow, m.f);
        sent := sent + [Response(strikeCount, blocked, "")];
      } else if msg.kind == "success" {
        tracker.RecordSuccess(msg.ip, msg.domain);
        sent := sent + [Response(0, false, "")];
      } else {
        sent := sent + [Response(0, false, "unknown message type")];
      }
    }

    /** One turn of the loop. */
    method HandleLine(line: Line, m: Moment)
      requires tracker.Valid() && LineOk(line)
      modifies this, tracker, tracker.db, tracker.ipsetMgr, tracker.ipsetMgr.fw
      ensures tracker.Valid() && tracker.Machine() == StepLine(old(tracker.Machine()), line, m)
      ensures sent == old(sent) + Replies(old(tracker.Machine()), line, m)
    {
      if line.Blank? {
        return;
      }
      if line.BadJson? {
        sent := sent + [Response(0, false, "invalid JSON")];
        return;
      }
      HandleMessage(line, m);
    }

    /** `handleConnection` with no other connection at work. */
    method HandleConnection(lines: seq<Line>, at: seq<Moment>)
      requires tracker.Valid() && LinesOk(lines) && |lines| == |at|
      modifies this, tracker, tracker.db, tracker.ipsetMgr, tracker.ipsetMgr.fw
      ensures tracker.Valid()
      ensures tracker.Machine() == Serve(old(tracker.Machine()), lines, at).0
      ensures sent == old(sent) + Serve(old(tracker.Machine()), lines, at).1
    {
      ghost var s := tracker.Machine();
      for i := 0 to |lines|
        invariant tracker.Valid()
        invariant tracker.Machine() == Serve(s, lines[..i], at[..i]).0
        invariant sent == old(sent) + Serve(s, lines[..i], at[..i]).1
      {
        ServeOneMore(s, lines, at, i);
        HandleLine(lines[i], at[i]);
      }
      assert lines[..|lines|] == lines && at[..|lines|] == at;
    }
  }

  lemma ServeOneMore(s: State, lines: seq<Line>, at: seq<Moment>, i: nat)
    requires StateOk(s) && s.up && LinesOk(lines) && i < |lines| == |at|
    ensures var (s1, out) := Serve(s, lines[..i], at[..i]);
            Serve(s, lines[..i + 1], at[..i + 1]) == (StepLine(s1, lines[i], at[i]), out + Replies(s1, lines[i], at[i]))
  {
    assert lines[..i + 1][..i] == lines[..i] && at[..i + 1][..i] == at[..i];
  }

  // ---------- many connections ----------

  /** A connection's loop: lines read so far, the reply computed but not yet written, and what was written. */
  datatype Conn = Conn(input: seq<Line>, read: nat, reply: Option<Response>, sent: seq<Response>)

  /** A line answered: which connection, and at which point of the tracker's history. */
  datatype Served = Served(conn: nat, line: Line, moment: Moment, at: nat, response: Response)

  /** `events` is every tracker operation so far, in the order the lock let them in. */
  datatype World = World(conns: seq<Conn>, events: seq<Event>, served: seq<Served>)

  datatype Action =
    | Accept(input: seq<Line>)
    | Read(conn: nat, moment: Moment)
    | Write(conn: nat)
    | Tick(now: int, delOk: set<string>)

  ghost predicate Enabled(w: World, a: Action) {
    match a
    case Accept(input) => LinesOk(input)
    case Read(i, _) => i < |w.conns| && w.conns[i].reply == None && w.conns[i].read < |w.conns[i].input|
    case Write(i) => i < |w.conns| && w.conns[i].reply.Some?
    case Tick(_, _) => true
  }

  /** The tracker's state: one history, run from the state the daemon started in. */
  function Now(s0: State, w: World): State
    requires StateOk(s0) && EventsOk(w.events)
  {
    Run(s0, w.events)
  }

  ghost predicate WorldOk(w: World) {
    && EventsOk(w.events)
    && forall i :: 0 <= i < |w.conns| ==> LinesOk(w.conns[i].input) && w.conns[i].read <= |w.conns[i].input|
  }

  function Do(s0: State, w: World, a: Action): (w': World)
    requires StateOk(s0) && WorldOk(w) && Enabled(w, a)
    ensures WorldOk(w')
  {
    match a
    case Accept(input) => w.(conns := w.conns + [Conn(input, 0, None, [])])
    case Tick(now, delOk) => w.(events := w.events + [Cleanup(now, delOk)])
    case Write(i) =>
      var c := w.conns[i];
      w.(conns := w.conns[i := c.(reply := None, sent := c.sent + [c.reply.value])])
    case Read(i, m) =>
      var c := w.conns[i];
      var line := c.input[c.read];
      assert LineOk(line);
      if line.Blank? then w.(conns := w.conns[i := c.(read := c.read + 1)]) else
        var response := ReplyTo(Now(s0, w), line, m);
        var e := EventOf(line, m);
        World(w.conns[i := c.(read := c.read + 1, reply := Some(response))],
              if e.Some? then w.events + [e.value] else w.events,
              w.served + [Served(i, line, m, |w.events|, response)])
  }

  function ResponsesOf(served: seq<Served>, i: nat): seq<Response> {
    if served == [] then [] else
      ResponsesOf(served[..|served| - 1], i) + if served[|served| - 1].conn == i then [served[|served| - 1].response]
        else []
  }

  function LinesOf(served: seq<Served>, i: nat): seq<Line> {
    if served == [] then [] else
      LinesOf(served[..|served| - 1], i) + if served[|served| - 1].conn == i then [served[|served| - 1].line] else []
  }

  function NonBlank(lines: seq<Line>): seq<Line> {
    if lines == [] then [] else
      NonBlank(lines[..|lines| - 1]) + if lines[|lines| - 1].Blank? then [] else [lines[|lines| - 1]]
  }

  function Pending(reply: Option<Response>): seq<Response> {
    if reply.Some? then [reply.value] else []
  }

  /** A loop has answered the non-blank lines it has read, in order, the last answer perhaps still to be written. */
  ghost predicate InOrder(c: Conn, served: seq<Served>, i: nat)
    requires c.read <= |c.input|
  {
    && c.sent + Pending(c.reply) == ResponsesOf(served, i)
    && LinesOf(served, i) == NonBlank(c.input[..c.read])
  }

  /** The entry's answer is the tracker's answer at its point of the history, where its own operation comes next. */
  ghost predicate Answered(s0: State, events: seq<Event>, x: Served)
    requires StateOk(s0) && EventsOk(events)
  {
    && x.at <= |events|
    && x.response == ReplyTo(Run(s0, events[..x.at]), x.line, x.moment)
    && (EventOf(x.line, x.moment).Some? ==> x.at < |events| && events[x.at] == EventOf(x.line, x.moment).value)
  }

  /** All answers come from one history, and no operation answers two lines. */
  ghost predicate OneHistory(s0: State, w: World)
    requires StateOk(s0) && EventsOk(w.events)
  {
    && (forall k :: 0 <= k < |w.served| ==> Answered(s0, w.events, w.served[k]))
    && (forall j, k :: 0 <= j < k < |w.served| ==>
          w.served[j].at <= w.served[k].at
          && (EventOf(w.served[j].line, w.served[j].moment).Some? ==> w.served[j].at < w.served[k].at))
  }

  /** The entry answers the tracker operation at position n of the history. */
  ghost predicate AnswersEvent(x: Served, n: nat) {
    x.at == n && EventOf(x.line, x.moment).Some?
  }

  ghost predicate IsAnswered(served: seq<Served>, n: nat) {
    exists k :: 0 <= k < |served| && AnswersEvent(served[k], n)
  }

  /** Every operation on behalf of a connection was answered on one; the others are cleanup passes. */
  ghost predicate AllAnswered(w: World) {
    forall n :: 0 <= n < |w.events| && !w.events[n].Cleanup? ==> IsAnswered(w.served, n)
  }

  ghost predicate Consistent(s0: State, w: World)
    requires StateOk(s0)
  {
    && WorldOk(w)
    && AllAnswered(w)
    && (forall k :: 0 <= k < |w.served| ==> w.served[k].conn < |w.conns|)
    && (forall i :: 0 <= i < |w.conns| ==> InOrder(w.conns[i], w.served, i))
    && OneHistory(s0, w)
  }

  lemma {:induction false} UnknownConnection(served: seq<Served>, i: nat)
    requires forall k :: 0 <= k < |served| ==> served[k].conn != i
    ensures ResponsesOf(served, i) == [] && LinesOf(served, i) == []
  {
    if served != [] {
      UnknownConnection(served[..|served| - 1], i);
    }
  }

  lemma MoreEvents(s0: State, w: World, more: seq<Event>)
    requires StateOk(s0) && EventsOk(w.events) && EventsOk(w.events + more) && OneHistory(s0, w)
    ensures OneHistory(s0, w.(events := w.events + more))
  {
    forall k | 0 <= k < |w.served| ensures Answered(s0, w.events + more, w.served[k]) {
      assert Answered(s0, w.events, w.served[k]);
      assert (w.events + more)[..w.served[k].at] == w.events[..w.served[k].at];
    }
  }

  lemma ReadInOrder(c: Conn, served: seq<Served>, i: nat, entry: Served)
    requires c.read < |c.input| && InOrder(c, served, i) && c.reply == None
    requires entry.conn == i && entry.line == c.input[c.read] && !entry.line.Blank?
    ensures InOrder(c.(read := c.read + 1, reply := Some(entry.response)), served + [entry], i)
  {
    assert (served + [entry])[..|served + [entry]| - 1] == served;
    assert c.input[..c.read + 1][..c.read] == c.input[..c.read];
    assert c.sent + [] == c.sent;
  }

  lemma OtherInOrder(c: Conn, served: seq<Served>, entry: Served, j: nat)
    requires c.read <= |c.input| && InOrder(c, served, j) && entry.conn != j
    ensures InOrder(c, served + [entry], j)
  {
    assert (served + [entry])[..|served + [entry]| - 1] == served;
  }

  lemma BlankInOrder(c: Conn, served: seq<Served>, i: nat)
    requires c.read < |c.input| && InOrder(c, served, i) && c.input[c.read].Blank?
    ensures InOrder(c.(read := c.read + 1), served, i)
  {
    assert c.input[..c.read + 1][..c.read] == c.input[..c.read];
  }

  lemma ReadBlankKeeps(s0: State, w: World, i: nat, m: Moment)
    requires StateOk(s0) && Consistent(s0, w) && Enabled(w, Read(i, m)) && w.conns[i].input[w.conns[i].read].Blank?
    ensures Consistent(s0, Do(s0, w, Read(i, m)))
  {
    var w' := Do(s0, w, Read(i, m));
    ReadBlankInOrder(w, i, w');
    SameHistory(s0, w, w');
  }

  lemma ReadBlankInOrder(w: World, i: nat, w': World)
    requires WorldOk(w) && i < |w.conns| && w.conns[i].read < |w.conns[i].input|
    requires w.conns[i].input[w.conns[i].read].Blank?
    requires forall j :: 0 <= j < |w.conns| ==> InOrder(w.conns[j], w.served, j)
    requires w' == w.(conns := w.conns[i := w.conns[i].(read := w.conns[i].read + 1)])
    ensures forall j :: 0 <= j < |w'.conns| ==> InOrder(w'.conns[j], w'.served, j)
  {
    forall j | 0 <= j < |w'.conns| ensures InOrder(w'.conns[j], w'.served, j) {
      assert InOrder(w.conns[j], w.served, j);
      if j == i {
        BlankInOrder(w.conns[i], w.served, i);
      }
    }
  }

  lemma ReadHistory(s0: State, w: World, i: nat, m: Moment)
    requires StateOk(s0) && Consistent(s0, w) && Enabled(w, Read(i, m)) && !w.conns[i].input[w.conns[i].read].Blank?
    ensures OneHistory(s0, Do(s0, w, Read(i, m)))
  {
    var w', line := Do(s0, w, Read(i, m)), w.conns[i].input[w.conns[i].read];
    var entry := Served(i, line, m, |w.events|, ReplyTo(Now(s0, w), line, m));
    var more := if EventOf(line, m).Some? then [EventOf(line, m).value] else [];
    assert w'.events == w.events + more && w'.served == w.served + [entry];
    MoreEvents(s0, w, more);
    assert w'.events[..entry.at] == w.events;
    assert forall k :: 0 <= k < |w.served| ==> Answered(s0, w.events, w.served[k]);
    ServedKeeps(s0, w, w', entry);
  }

  lemma ReadAllAnswered(s0: State, w: World, i: nat, m: Moment)
    requires StateOk(s0) && Consistent(s0, w) && Enabled(w, Read(i, m)) && !w.conns[i].input[w.conns[i].read].Blank?
    ensures AllAnswered(Do(s0, w, Read(i, m)))
  {
    var w' := Do(s0, w, Read(i, m));
    forall n | 0 <= n < |w'.events| && !w'.events[n].Cleanup? ensures IsAnswered(w'.served, n) {
      if n < |w.events| {
        assert IsAnswered(w.served, n);
        var k :| 0 <= k < |w.served| && AnswersEvent(w.served[k], n);
        assert AnswersEvent(w'.served[k], n);
      } else {
        assert AnswersEvent(w'.served[|w.served|], n);
      }
    }
  }

  lemma ReadKeeps(s0: State, w: World, i: nat, m: Moment)
    requires StateOk(s0) && Consistent(s0, w) && Enabled(w, Read(i, m)) && !w.conns[i].input[w.conns[i].read].Blank?
    ensures Consistent(s0, Do(s0, w, Read(i, m)))
  {
    var w', line := Do(s0, w, Read(i, m)), w.conns[i].input[w.conns[i].read];
    var entry := Served(i, line, m, |w.events|, ReplyTo(Now(s0, w), line, m));
    assert w'.served == w.served + [entry];
    ReadHistory(s0, w, i, m);
    ReadAllAnswered(s0, w, i, m);
    forall j | 0 <= j < |w'.conns| ensures InOrder(w'.conns[j], w'.served, j) {
      assert InOrder(w.conns[j], w.served, j);
      if j == i {
        ReadInOrder(w.conns[i], w.served, i, entry);
      } else {
        OtherInOrder(w.conns[j], w.served, entry, j);
      }
    }
  }

  lemma ServedKeeps(s0: State, w: World, w': World, entry: Served)
    requires StateOk(s0) && EventsOk(w'.events) && OneHistory(s0, w.(events := w'.events))
    requires w'.served == w.served + [entry]
    requires forall k :: 0 <= k < |w.served| ==> w.served[k].at <= entry.at
    requires forall k :: 0 <= k < |w.served| && EventOf(w.served[k].line, w.served[k].moment).Some? ==>
               w.served[k].at < entry.at
    requires Answered(s0, w'.events, entry)
    ensures OneHistory(s0, w')
  {
    forall k | 0 <= k < |w'.served| ensures Answered(s0, w'.events, w'.served[k]) {
      if k < |w.served| {
        assert w'.served[k] == w.served[k];
      }
    }
  }

  lemma NewConnectionInOrder(input: seq<Line>, served: seq<Served>, i: nat)
    requires forall k :: 0 <= k < |served| ==> served[k].conn < i
    ensures InOrder(Conn(input, 0, None, []), served, i)
  {
    UnknownConnection(served, i);
    assert input[..0] == [];
  }

  lemma AcceptKeeps(s0: State, w: World, input: seq<Line>)
    requires StateOk(s0) && Consistent(s0, w) && LinesOk(input)
    ensures Consistent(s0, Do(s0, w, Accept(input)))
  {
    var w' := Do(s0, w, Accept(input));
    NewConnectionInOrder(input, w.served, |w.conns|);
    forall j | 0 <= j < |w'.conns| ensures InOrder(w'.conns[j], w'.served, j) {
      assert j < |w.conns| ==> InOrder(w.conns[j], w.served, j);
    }
    SameHistory(s0, w, w');
  }

  lemma SameHistory(s0: State, w: World, w': World)
    requires StateOk(s0) && EventsOk(w.events) && OneHistory(s0, w) && w'.events == w.events && w'.served == w.served
    ensures OneHistory(s0, w')
  {
  }

  lemma WriteKeeps(s0: State, w: World, i: nat)
    requires StateOk(s0) && Consistent(s0, w) && Enabled(w, Write(i))
    ensures Consistent(s0, Do(s0, w, Write(i)))
  {
    var w' := Do(s0, w, Write(i));
    forall j | 0 <= j < |w'.conns| ensures InOrder(w'.conns[j], w'.served, j) {
      assert InOrder(w.conns[j], w.served, j);
    }
  }

  lemma TickKeeps(s0: State, w: World, now: int, delOk: set<string>)
    requires StateOk(s0) && Consistent(s0, w)
    ensures Consistent(s0, w.(events := w.events + [Cleanup(now, delOk)]))
  {
    MoreEvents(s0, w, [Cleanup(now, delOk)]);
  }

  lemma ActionKeeps(s0: State, w: World, a: Action)
    requires StateOk(s0) && Consistent(s0, w) && Enabled(w, a)
    ensures Consistent(s0, Do(s0, w, a))
  {
    match a
    case Accept(input) => AcceptKeeps(s0, w, input);
    case Write(i) => WriteKeeps(s0, w, i);
    case Tick(now, delOk) => TickKeeps(s0, w, now, delOk);
    case Read(i, m) =>
      if w.conns[i].input[w.conns[i].read].Blank? {
        ReadBlankKeeps(s0, w, i, m);
      } else {
        ReadKeeps(s0, w, i, m);
      }
  }

  /** The worlds that a sequence of actions leads to; an action that is not possible is skipped. */
  ghost function Interleave(s0: State, actions: seq<Action>): (w: World)
    requires StateOk(s0) && s0.up
    ensures WorldOk(w)
    decreases |actions|
  {
    if actions == [] then World([], [], []) else
      var w := Interleave(s0, actions[..|actions| - 1]);
      if Enabled(w, actions[|actions| - 1]) then Do(s0, w, actions[|actions| - 1]) else w
  }

  lemma {:induction false} InterleavingConsistent(s0: State, actions: seq<Action>)
    requires StateOk(s0) && s0.up
    ensures Consistent(s0, Interleave(s0, actions))
    decreases |actions|
  {
    if actions != [] {
      var front, a := actions[..|actions| - 1], actions[|actions| - 1];
      InterleavingConsistent(s0, front);
      if Enabled(Interleave(s0, front), a) {
        ActionKeeps(s0, Interleave(s0, front), a);
      }
    }
  }

  /**
   Under any interleaving, a connection that has been served to the end has
   sent one response for each of its non-blank lines, in their order, and each
   is the tracker's answer at one point of the history all connections share;
   every operation of that history but the cleanups has such an answer.
   */
  lemma ConnectionsAgree(s0: State, actions: seq<Action>, i: nat)
    requires StateOk(s0) && s0.up
    requires var w := Interleave(s0, actions);
             i < |w.conns| && w.conns[i].reply == None && w.conns[i].read == |w.conns[i].input|
    ensures var w := Interleave(s0, actions);
            && w.conns[i].sent == ResponsesOf(w.served, i)
            && LinesOf(w.served, i) == NonBlank(w.conns[i].input)
            && |w.conns[i].sent| == |NonBlank(w.conns[i].input)|
            && OneHistory(s0, w) && AllAnswered(w)
  {
    var w := Interleave(s0, actions);
    InterleavingConsistent(s0, actions);
    assert InOrder(w.conns[i], w.served, i);
    var c := w.conns[i];
    assert c.input[..c.read] == c.input && c.sent + [] == c.sent;
    SameLength(w.served, i);
  }

  lemma {:induction false} SameLength(served: seq<Served>, i: nat)
    ensures |ResponsesOf(served, i)| == |LinesOf(served, i)|
  {
    if served != [] {
      SameLength(served[..|served| - 1], i);
    }
  }

  // ---------- the counts in the answers ----------

  /** The list of counts after one event: empty without a record, one longer after a failure that is not excused. */
  function StreakStep(counts: seq<nat>, before: State, h: History, e: Event, p: (string, string)): seq<nat>
    requires StateOk(before) && EventOk(e)
  {
    if p !in Record(h, before, Step(before, e), e).log then []
    else if before.up && e.Failure? && (e.ip, e.domain) == p
            && !NewlyExcused(LogOf(h, p), FailOf(before.cfg, e.domain, e.reason, e.now))
    then counts + [FailureSpec(before, e.ip, e.domain, e.reason, e.now, e.blockNow, e.f).1]
    else counts
  }

  /** The counts answered to the failures of p that were not excused, since its record began. */
  function Streak(s: State, h: History, events: seq<Event>, p: (string, string)): seq<nat>
    requires StateOk(s) && EventsOk(events)
    decreases |events|
  {
    if events == [] then [] else
      var n := |events| - 1;
      StreakStep(Streak(s, h, events[..n], p), Run(s, events[..n]), RunLog(s, h, events[..n]), events[n], p)
  }

  ghost predicate CountsUp(counts: seq<nat>) {
    forall i :: 0 <= i < |counts| ==> counts[i] == i + 1
  }

  /** How one event changes the log of p: it may vanish, grow by this failure, or stay. */
  lemma LogStep(s: State, h: History, e: Event, p: (string, string))
    requires StateOk(s) && EventOk(e) && p in Record(h, s, Step(s, e), e).log
    ensures LogOf(Record(h, s, Step(s, e), e), p)
         == if s.up && e.Failure? && (e.ip, e.domain) == p
            then LogOf(h, p) + [FailOf(s.cfg, e.domain, e.reason, e.now)]
            else LogOf(h, p)
  {
  }

  lemma CountUpFurther(counts: seq<nat>, log: seq<Fail>, f: Fail)
    requires CountsUp(counts) && |counts| == Charged(log)
    ensures var more := if NewlyExcused(log, f) then counts else counts + [Charged(log + [f])];
            CountsUp(more) && |more| == Charged(log + [f])
  {
    CountAppend(log, f);
  }

  lemma OwnFailureCountsUp(counts: seq<nat>, before: State, h: History, e: Event, p: (string, string))
    requires StateOk(before) && EventOk(e) && Agrees(before, h)
    requires before.up && e.Failure? && (e.ip, e.domain) == p
    requires CountsUp(counts) && |counts| == Charged(LogOf(h, p))
    ensures CountsUp(StreakStep(counts, before, h, e, p))
    ensures |StreakStep(counts, before, h, e, p)| == Charged(LogOf(Record(h, before, Step(before, e), e), p))
  {
    LogStep(before, h, e, p);
    AnswerToLog(before, h, e);
    CountUpFurther(counts, LogOf(h, p), FailOf(before.cfg, e.domain, e.reason, e.now));
  }

  lemma OtherEventCountsUp(counts: seq<nat>, before: State, h: History, e: Event, p: (string, string))
    requires StateOk(before) && EventOk(e)
    requires !(before.up && e.Failure? && (e.ip, e.domain) == p)
    requires CountsUp(counts) && |counts| == Charged(LogOf(h, p))
    ensures CountsUp(StreakStep(counts, before, h, e, p))
    ensures |StreakStep(counts, before, h, e, p)| == Charged(LogOf(Record(h, before, Step(before, e), e), p))
  {
    var h' := Record(h, before, Step(before, e), e);
    if p in h'.log {
      LogStep(before, h, e, p);
      assert StreakStep(counts, before, h, e, p) == counts;
    } else {
      assert LogOf(h', p) == [] && Charged([]) == 0;
      assert StreakStep(counts, before, h, e, p) == [];
    }
  }

  lemma StreakStepCountsUp(counts: seq<nat>, before: State, h: History, e: Event, p: (string, string))
    requires StateOk(before) && EventOk(e) && Agrees(before, h)
    requires CountsUp(counts) && |counts| == Charged(LogOf(h, p))
    ensures CountsUp(StreakStep(counts, before, h, e, p))
    ensures |StreakStep(counts, before, h, e, p)| == Charged(LogOf(Record(h, before, Step(before, e), e), p))
  {
    if before.up && e.Failure? && (e.ip, e.domain) == p {
      OwnFailureCountsUp(counts, before, h, e, p);
    } else {
      OtherEventCountsUp(counts, before, h, e, p);
    }
  }

  /**
   Between resets the answers to failures that are not excused count 1, 2, 3
   and so on, with no gap and no repeat, up to the charged failures on record;
   over any run, whichever connections the failures came from.
   */
  lemma {:induction false} StreakCountsUp(s0: State, t0: int, events: seq<Event>, p: (string, string))
    requires NoStrikes(s0) && EventsOk(events) && LoadsInOrder(t0, events)
    ensures CountsUp(StreakFrom(s0, t0, events, p))
    ensures |StreakFrom(s0, t0, events, p)| == Charged(LogOf(LogFrom(s0, t0, events), p))
    decreases |events|
  {
    if events != [] {
      var n := |events| - 1;
      StreakCountsUp(s0, t0, events[..n], p);
      RunAgrees(s0, t0, events[..n]);
      StreakStepCountsUp(StreakFrom(s0, t0, events[..n], p), Run(s0, events[..n]), LogFrom(s0, t0, events[..n]),
                         events[n], p);
    }
  }

  /** The streak of p after a run that began without strikes at t0. */
  function StreakFrom(s0: State, t0: int, events: seq<Event>, p: (string, string)): seq<nat>
    requires StateOk(s0) && EventsOk(events)
  {
    Streak(s0, History(map[], t0), events, p)
  }

  // ---------- the responses of one daemon's life ----------

  lemma {:induction false} LoadsConcat(t0: int, past: seq<Event>, events: seq<Event>)
    requires LoadsInOrder(t0, past) && forall i :: 0 <= i < |events| ==> !events[i].Restart?
    ensures LoadsInOrder(t0, past + events)
    decreases |events|
  {
    if events == [] {
      assert past + events == past;
    } else {
      var n := |events| - 1;
      LoadsConcat(t0, past, events[..n]);
      assert (past + events)[..|past + events| - 1] == past + events[..n];
    }
  }

  lemma NoRestarts(s0: State, w: World)
    requires StateOk(s0) && Consistent(s0, w)
    ensures forall n :: 0 <= n < |w.events| ==> !w.events[n].Restart?
  {
    forall n | 0 <= n < |w.events| ensures !w.events[n].Restart? {
      if !w.events[n].Cleanup? {
        assert IsAnswered(w.served, n);
        var k :| 0 <= k < |w.served| && AnswersEvent(w.served[k], n);
        assert Answered(s0, w.events, w.served[k]);
      }
    }
  }

  /** An installation without strikes at t0, and the events of the daemon's earlier lives up to a running one. */
  ghost predicate Launched(s0: State, t0: int, past: seq<Event>) {
    NoStrikes(s0) && EventsOk(past) && LoadsInOrder(t0, past) && Run(s0, past).up
  }

  /** What the history has recorded when it reaches position n of this life. */
  function HistoryAt(past: seq<Event>, w: World, n: nat): seq<Event>
    requires n <= |w.events|
  {
    past + w.events[..n]
  }

  lemma AnsweredInHistory(s0: State, t0: int, past: seq<Event>, w: World, x: Served)
    requires Launched(s0, t0, past) && Consistent(Run(s0, past), w) && x in w.served && x.line.Message?
    requires x.line.kind == "failure"
    ensures x.at < |w.events| && w.events[x.at] == EventOf(x.line, x.moment).value
    ensures EventsOk(HistoryAt(past, w, x.at)) && LoadsInOrder(t0, HistoryAt(past, w, x.at))
    ensures x.response == ReplyTo(Run(s0, HistoryAt(past, w, x.at)), x.line, x.moment)
    ensures Run(s0, HistoryAt(past, w, x.at)).up
  {
    var k :| 0 <= k < |w.served| && w.served[k] == x;
    assert Answered(Run(s0, past), w.events, w.served[k]);
    NoRestarts(Run(s0, past), w);
    RunConcat(s0, past, w.events[..x.at]);
    LoadsConcat(t0, past, w.events[..x.at]);
    StaysUp(Run(s0, past), w.events[..x.at]);
  }

  lemma {:induction false} StaysUp(s: State, events: seq<Event>)
    requires StateOk(s) && EventsOk(events) && s.up && forall i :: 0 <= i < |events| ==> !events[i].Restart?
    ensures Run(s, events).up
    decreases |events|
  {
    if events != [] {
      StaysUp(s, events[..|events| - 1]);
    }
  }

  /**
   The responses count up: under any interleaving, and whatever earlier lives
   of the daemon left, a response to a failure of p carries the next number of
   p's streak, or the same one when the failure is excused; the streak itself
   is 1, 2, 3, ... without gap or repeat.
   */
  lemma ResponsesCountUp(s0: State, t0: int, past: seq<Event>, actions: seq<Action>, k: nat)
    requires Launched(s0, t0, past) && k < |Interleave(Run(s0, past), actions).served|
    requires var x := Interleave(Run(s0, past), actions).served[k]; x.line.Message? && x.line.kind == "failure"
    ensures var w := Interleave(Run(s0, past), actions);
            var x := w.served[k];
            var p := (x.line.ip, x.line.domain);
            && x.at < |w.events| && EventsOk(HistoryAt(past, w, x.at))
            && var events := HistoryAt(past, w, x.at);
               var before, s := StreakFrom(s0, t0, events, p), Run(s0, events);
               var f := FailOf(s.cfg, p.1, x.line.reason, x.moment.now);
               && CountsUp(before)
               && (x.response.strikeCount
                   == if NewlyExcused(LogOf(LogFrom(s0, t0, events), p), f) then |before| else |before| + 1)
               && (x.response.blocked <==> x.response.strikeCount >= THRESHOLD)
  {
    var w := Interleave(Run(s0, past), actions);
    var x := w.served[k];
    var p := (x.line.ip, x.line.domain);
    InterleavingConsistent(Run(s0, past), actions);
    AnsweredInHistory(s0, t0, past, w, x);
    var events := HistoryAt(past, w, x.at);
    RunAgrees(s0, t0, events);
    AnswerToLog(Run(s0, events), LogFrom(s0, t0, events), w.events[x.at]);
    StreakCountsUp(s0, t0, events, p);
    CountAppend(LogOf(LogFrom(s0, t0, events), p), FailOf(Run(s0, events).cfg, p.1, x.line.reason, x.moment.now));
  }

  /** The next event of this life leaves p's streak alone, ends it, or appends the count of a response. */
  ghost predicate GrowsByResponse(before: seq<nat>, after: seq<nat>, w: World, n: nat, p: (string, string)) {
    after == before || after == [] ||
    exists k :: 0 <= k < |w.served| && AnswersEvent(w.served[k], n)
                && w.served[k].line.kind == "failure" && (w.served[k].line.ip, w.served[k].line.domain) == p
                && after == before + [w.served[k].response.strikeCount]
  }

  lemma HistoryStep(s0: State, t0: int, past: seq<Event>, w: World, n: nat, p: (string, string))
    requires StateOk(s0) && EventsOk(past) && EventsOk(w.events) && n < |w.events|
    ensures EventsOk(HistoryAt(past, w, n)) && EventsOk(HistoryAt(past, w, n + 1))
    ensures Run(s0, HistoryAt(past, w, n)) == Run(Run(s0, past), w.events[..n])
    ensures StreakFrom(s0, t0, HistoryAt(past, w, n + 1), p)
         == StreakStep(StreakFrom(s0, t0, HistoryAt(past, w, n), p), Run(Run(s0, past), w.events[..n]),
                       LogFrom(s0, t0, HistoryAt(past, w, n)), w.events[n], p)
  {
    RunConcat(s0, past, w.events[..n]);
    var events, more := HistoryAt(past, w, n), HistoryAt(past, w, n + 1);
    assert more[..|more| - 1] == events && more[|more| - 1] == w.events[n];
  }

  /** And the streak holds nothing but responses: it never grows by a count that no connection was answered. */
  lemma StreakIsResponses(s0: State, t0: int, past: seq<Event>, actions: seq<Action>, n: nat, p: (string, string))
    requires Launched(s0, t0, past) && n < |Interleave(Run(s0, past), actions).events|
    ensures var w := Interleave(Run(s0, past), actions);
            && EventsOk(HistoryAt(past, w, n)) && EventsOk(HistoryAt(past, w, n + 1))
            && GrowsByResponse(StreakFrom(s0, t0, HistoryAt(past, w, n), p),
                               StreakFrom(s0, t0, HistoryAt(past, w, n + 1), p), w, n, p)
  {
    var w, s := Interleave(Run(s0, past), actions), Run(s0, past);
    InterleavingConsistent(s, actions);
    HistoryStep(s0, t0, past, w, n, p);
    var before, h := StreakFrom(s0, t0, HistoryAt(past, w, n), p), LogFrom(s0, t0, HistoryAt(past, w, n));
    NextGrows(before, s, h, w, n, p);
  }

  lemma NextGrows(counts: seq<nat>, s: State, h: History, w: World, n: nat, p: (string, string))
    requires StateOk(s) && Consistent(s, w) && n < |w.events|
    ensures GrowsByResponse(counts, StreakStep(counts, Run(s, w.events[..n]), h, w.events[n], p), w, n, p)
  {
    if !w.events[n].Cleanup? {
      AnsweredFrom(s, w, n);
    }
    StreakStepGrows(counts, Run(s, w.events[..n]), h, w, n, p);
  }

  lemma StreakStepGrows(counts: seq<nat>, s: State, h: History, w: World, n: nat, p: (string, string))
    requires StateOk(s) && n < |w.events| && EventOk(w.events[n])
    requires !w.events[n].Cleanup? ==> exists k :: 0 <= k < |w.served| && AnswersFrom(s, w.events[n], w.served[k], n)
    ensures GrowsByResponse(counts, StreakStep(counts, s, h, w.events[n], p), w, n, p)
  {
    var e := w.events[n];
    var after := StreakStep(counts, s, h, e, p);
    if after != counts && after != [] {
      var k :| 0 <= k < |w.served| && AnswersFrom(s, e, w.served[k], n);
      assert after == counts + [w.served[k].response.strikeCount];
    }
  }

  ghost predicate AnswersFrom(s: State, e: Event, x: Served, n: nat)
    requires StateOk(s)
  {
    AnswersEvent(x, n) && EventOf(x.line, x.moment) == Some(e) && x.response == ReplyTo(s, x.line, x.moment)
  }

  lemma AnsweredFrom(s: State, w: World, n: nat)
    requires StateOk(s) && Consistent(s, w) && n < |w.events| && !w.events[n].Cleanup?
    ensures exists k :: 0 <= k < |w.served| && AnswersFrom(Run(s, w.events[..n]), w.events[n], w.served[k], n)
  {
    assert IsAnswered(w.served, n);
    var k :| 0 <= k < |w.served| && AnswersEvent(w.served[k], n);
    assert Answered(s, w.events, w.served[k]);
    assert AnswersFrom(Run(s, w.events[..n]), w.events[n], w.served[k], n);
  }

  // ---------- what each kind of line does ----------

  /** The response, and the one operation or none, by the kind of the line. */
  lemma LineByKind(s: State, line: Line, m: Moment)
    requires StateOk(s) && !line.Blank?
    ensures line.BadJson? ==> EventOf(line, m) == None && ReplyTo(s, line, m) == Response(0, false, "invalid JSON")
    ensures line.Message? && line.kind == "failure" ==>
              EventOf(line, m) == Some(Failure(line.ip, line.domain, line.reason, m.now, m.blockNow, m.f))
    ensures line.Message? && line.kind == "success" ==>
              EventOf(line, m) == Some(Success(line.ip, line.domain)) && ReplyTo(s, line, m) == Response(0, false, "")
    ensures line.Message? && line.kind != "failure" && line.kind != "success" ==>
              EventOf(line, m) == None && ReplyTo(s, line, m) == Response(0, false, "unknown message type")
  {
  }

  /** A lone loop does the same to the tracker. */
  lemma LoneLineByKind(s: State, line: Line, m: Moment)
    requires StateOk(s) && s.up && LineOk(line)
    ensures line.Blank? ==> Replies(s, line, m) == []
    ensures line.Message? && line.kind == "failure" ==>
              StepLine(s, line, m) == Step(s, Failure(line.ip, line.domain, line.reason, m.now, m.blockNow, m.f))
    ensures line.Message? && line.kind == "success" ==> StepLine(s, line, m) == Step(s, Success(line.ip, line.domain))
    ensures !line.Message? || (line.kind != "failure" && line.kind != "success") ==> StepLine(s, line, m) == s
  {
  }

  /** The tracker operations of the lines, in their order, by kind. */
  function OperationsOf(lines: seq<Line>, at: seq<Moment>): seq<Event>
    requires |lines| == |at|
    decreases |lines|
  {
    if lines == [] then [] else
      var n := |lines| - 1;
      var line, m := lines[n], at[n];
      OperationsOf(lines[..n], at[..n])
      + if line.Message? && line.kind == "failure"
        then [Failure(line.ip, line.domain, line.reason, m.now, m.blockNow, m.f)]
        else if line.Message? && line.kind == "success" then [Success(line.ip, line.domain)]
        else []
  }

  /** A lone connection: every operation of its lines is done, in order, and every non-blank line answered. */
  lemma {:induction false} ServeDoesAll(s: State, lines: seq<Line>, at: seq<Moment>)
    requires StateOk(s) && s.up && LinesOk(lines) && |lines| == |at|
    ensures EventsOk(OperationsOf(lines, at)) && Serve(s, lines, at).0 == Run(s, OperationsOf(lines, at))
    ensures |Serve(s, lines, at).1| == |NonBlank(lines)|
    decreases |lines|
  {
    if lines != [] {
      var n := |lines| - 1;
      ServeDoesAll(s, lines[..n], at[..n]);
      var front, all := OperationsOf(lines[..n], at[..n]), OperationsOf(lines, at);
      LoneLineByKind(Serve(s, lines[..n], at[..n]).0, lines[n], at[n]);
      if |all| > |front| {
        assert all[..|all| - 1] == front;
      } else {
        assert all == front;
      }
    }
  }

  /**
   A success resets: whatever came before, after a line of kind "success" its
   address and domain have no record in memory, no failure on record and an
   empty streak, and the response is 0 and not blocked.
   */
  lemma SuccessResets(s0: State, t0: int, past: seq<Event>, actions: seq<Action>, k: nat)
    requires Launched(s0, t0, past) && k < |Interleave(Run(s0, past), actions).served|
    requires var x := Interleave(Run(s0, past), actions).served[k]; x.line.Message? && x.line.kind == "success"
    ensures var w := Interleave(Run(s0, past), actions);
            var x := w.served[k];
            var p := (x.line.ip, x.line.domain);
            && x.at < |w.events| && EventsOk(HistoryAt(past, w, x.at + 1))
            && x.response == Response(0, false, "")
            && Reset(s0, t0, HistoryAt(past, w, x.at + 1), p)
  {
    var w := Interleave(Run(s0, past), actions);
    InterleavingConsistent(Run(s0, past), actions);
    SuccessInWorld(s0, t0, past, w, w.served[k]);
  }

  lemma SuccessInWorld(s0: State, t0: int, past: seq<Event>, w: World, x: Served)
    requires Launched(s0, t0, past) && Consistent(Run(s0, past), w) && x in w.served
    requires x.line.Message? && x.line.kind == "success"
    ensures x.at < |w.events| && x.response == Response(0, false, "")
    ensures EventsOk(HistoryAt(past, w, x.at + 1))
            && Reset(s0, t0, HistoryAt(past, w, x.at + 1), (x.line.ip, x.line.domain))
  {
    SuccessAnswered(Run(s0, past), w, x);
    HistoryNext(s0, past, w, x.at);
    SuccessInHistory(s0, t0, HistoryAt(past, w, x.at), x.line.ip, x.line.domain);
  }

  lemma HistoryNext(s0: State, past: seq<Event>, w: World, n: nat)
    requires StateOk(s0) && EventsOk(past) && EventsOk(w.events) && n < |w.events|
    ensures EventsOk(HistoryAt(past, w, n)) && EventsOk(HistoryAt(past, w, n + 1))
    ensures HistoryAt(past, w, n + 1) == HistoryAt(past, w, n) + [w.events[n]]
    ensures Run(s0, HistoryAt(past, w, n)) == Run(Run(s0, past), w.events[..n])
  {
    RunConcat(s0, past, w.events[..n]);
  }

  ghost predicate Reset(s0: State, t0: int, events: seq<Event>, p: (string, string))
    requires StateOk(s0) && EventsOk(events)
  {
    && p.0 + ":" + p.1 !in Run(s0, events).mem
    && p !in LogFrom(s0, t0, events).log
    && StreakFrom(s0, t0, events, p) == []
  }

  lemma SuccessAnswered(s: State, w: World, x: Served)
    requires StateOk(s) && s.up && Consistent(s, w) && x in w.served && x.line.Message? && x.line.kind == "success"
    ensures x.at < |w.events| && w.events[x.at] == Success(x.line.ip, x.line.domain)
    ensures x.response == Response(0, false, "") && Run(s, w.events[..x.at]).up
  {
    var k :| 0 <= k < |w.served| && w.served[k] == x;
    assert Answered(s, w.events, w.served[k]);
    NoRestarts(s, w);
    StaysUp(s, w.events[..x.at]);
  }

  lemma SuccessInHistory(s0: State, t0: int, events: seq<Event>, ip: string, domain: string)
    requires StateOk(s0) && EventsOk(events + [Success(ip, domain)]) && EventsOk(events) && Run(s0, events).up
    ensures Reset(s0, t0, events + [Success(ip, domain)], (ip, domain))
  {
    var after := events + [Success(ip, domain)];
    assert after[..|after| - 1] == events;
    assert Run(s0, after) == SuccessSpec(Run(s0, events), ip, domain);
  }
}
