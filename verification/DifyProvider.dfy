/** One dispatch of a remote run: the streaming client, the provider that reconciles instead of
    re-running, and the retry loop around it. */
module DifyProvider {

  // ---------- the streaming client ----------

  /** One well-formed data frame; "" marks an absent id. */
  datatype Frame = Frame(event: string, run: string, task: string, conv: string, status: string)

  /** How the body ends: a clean end of stream, or a failed read. */
  datatype Ending = Eof | ReadError

  /** What the server does with one request. */
  datatype Reply = Refused(permanent: bool) | Accepted(frames: seq<Frame>, ending: Ending)

  datatype StreamError = NoError | NotOpened(permanent: bool) | StreamEnded | Dropped

  datatype Remote = Remote(status: string, run: string, conv: string)

  /** What the client has gathered after some frames. stopped: poll mode saw a run id and let go. */
  datatype Gathered = Gathered(run: string, task: string, conv: string, done: bool, status: string, stopped: bool)

  const NOTHING := Gathered("", "", "", false, "", false)

  function Keep(new_: string, old_: string): string { if new_ != "" then new_ else old_ }

  predicate IsEnd(f: Frame, chat: bool) {
    f.event == "workflow_finished" || f.event == "error" || (chat && f.event == "message_end")
  }

  /** One frame. A later error or message end does not change an outcome that has already arrived. */
  function Gather(g: Gathered, f: Frame, chat: bool, stopAtRun: bool): Gathered {
    if g.stopped then g
    else
      var ids := g.(run := Keep(f.run, g.run), task := Keep(f.task, g.task),
                    conv := if chat then Keep(f.conv, g.conv) else "");
      if stopAtRun && ids.run != "" then ids.(stopped := true)
      else if f.event == "workflow_finished" then ids.(done := true, status := f.status)
      else if chat && f.event == "message_end" && !g.done then ids.(done := true, status := "succeeded")
      else if f.event == "error" && !g.done then ids.(done := true, status := "failed")
      else ids
  }

  function GatherAll(frames: seq<Frame>, chat: bool, stopAtRun: bool): Gathered {
    if frames == [] then NOTHING
    else Gather(GatherAll(frames[..|frames| - 1], chat, stopAtRun), frames[|frames| - 1], chat, stopAtRun)
  }

  /** What is persisted while the run streams: first that the stream opened, then the ids so far. */
  datatype Note = Started | Ref(run: string, conv: string, task: string)

  /** What must have been persisted once the client holds g: the opening first, then id notes only, the
      last of which holds every id captured. */
  predicate NotesMatch(notes: seq<Note>, g: Gathered) {
    && 0 < |notes| && notes[0] == Started
    && (forall i :: 0 < i < |notes| ==> notes[i].Ref?)
    && (if g.run == "" && g.task == "" && g.conv == "" then |notes| == 1
        else notes[|notes| - 1] == Ref(g.run, g.conv, g.task))
  }

  function Noted(notes: seq<Note>, g: Gathered, n: Gathered): seq<Note> {
    if n.run != g.run || n.task != g.task || n.conv != g.conv then notes + [Ref(n.run, n.conv, n.task)] else notes
  }

  lemma NotedMatches(notes: seq<Note>, g: Gathered, f: Frame, chat: bool, stopAtRun: bool)
    requires NotesMatch(notes, g)
    requires !chat ==> g.conv == ""
    ensures NotesMatch(Noted(notes, g, Gather(g, f, chat, stopAtRun)), Gather(g, f, chat, stopAtRun))
  {
  }

  lemma GatherNext(frames: seq<Frame>, i: nat, chat: bool, stopAtRun: bool)
    requires i < |frames|
    ensures GatherAll(frames[..i + 1], chat, stopAtRun)
      == Gather(GatherAll(frames[..i], chat, stopAtRun), frames[i], chat, stopAtRun)
    ensures !chat && GatherAll(frames[..i], chat, stopAtRun).conv == "" ==>
      GatherAll(frames[..i + 1], chat, stopAtRun).conv == ""
  {
    assert frames[..i + 1][..i] == frames[..i];
  }

  function StreamErr(g: Gathered, ending: Ending): StreamError {
    if g.stopped || g.done then NoError else if ending == Eof then StreamEnded else Dropped
  }

  method RunStream(reply: Reply, chat: bool, stopAtRun: bool)
    returns (res: Remote, run: string, task: string, err: StreamError, notes: seq<Note>)
    ensures reply.Refused? ==>
      err == NotOpened(reply.permanent) && res == Remote("", "", "") && run == "" && task == "" && notes == []
    ensures reply.Accepted? ==> (
      var g := GatherAll(reply.frames, chat, stopAtRun);
      && run == g.run && task == g.task && res.conv == g.conv
      && err == StreamErr(g, reply.ending)
      && res.status == (if g.stopped || !g.done then "" else g.status)
      && notes != [] && notes[0] == Started && (forall i :: 0 < i < |notes| ==> notes[i].Ref?)
      && (run == "" && task == "" && res.conv == "" ==> |notes| == 1)
      && (run != "" || task != "" || res.conv != "" ==> notes[|notes| - 1] == Ref(run, res.conv, task)))
  {
    if reply.Refused? {
      return Remote("", "", ""), "", "", NotOpened(reply.permanent), [];
    }
    var frames := reply.frames;
    notes := [Started];
    var g := NOTHING;
    var i := 0;
    while i < |frames| && !g.stopped
      invariant 0 <= i <= |frames|
      invariant g == GatherAll(frames[..i], chat, stopAtRun)
      invariant !chat ==> g.conv == ""
      invariant NotesMatch(notes, g)
    {
      GatherNext(frames, i, chat, stopAtRun);
      NotedMatches(notes, g, frames[i], chat, stopAtRun);
      hide GatherAll;
      hide NotesMatch;
      var n := Gather(g, frames[i], chat, stopAtRun);
      if n.run != g.run || n.task != g.task || n.conv != g.conv {
        notes := notes + [Ref(n.run, n.conv, n.task)];
      }
      g := n;
      i := i + 1;
    }
    StoppedStays(frames, i, chat, stopAtRun);
    run, task := g.run, g.task;
    res := Remote(if g.stopped || !g.done then "" else g.status, g.run, g.conv);
    err := if g.stopped || g.done then NoError else if reply.ending == Eof then StreamEnded else Dropped;
  }

  lemma {:induction false} StoppedStays(frames: seq<Frame>, i: nat, chat: bool, stopAtRun: bool)
    requires i <= |frames|
    requires i == |frames| || GatherAll(frames[..i], chat, stopAtRun).stopped
    ensures GatherAll(frames, chat, stopAtRun) == GatherAll(frames[..i], chat, stopAtRun)
  {
    if i == |frames| {
      assert frames[..i] == frames;
    } else {
      var n := |frames| - 1;
      assert frames[..n][..i] == frames[..i];
      if i < n { StoppedStays(frames[..n], i, chat, stopAtRun); } else { assert frames[..n] == frames[..i]; }
    }
  }

  // ---------- what the frames told ----------

  /** id is the last one picked that is not empty, and empty when there is none. */
  predicate LastOf(frames: seq<Frame>, pick: Frame -> string, id: string) {
    if id == "" then forall i :: 0 <= i < |frames| ==> pick(frames[i]) == ""
    else exists i ::
      0 <= i < |frames| && pick(frames[i]) == id && forall k :: i < k < |frames| ==> pick(frames[k]) == ""
  }

  lemma LastOfNext(frames: seq<Frame>, f: Frame, pick: Frame -> string, id: string)
    requires LastOf(frames, pick, id)
    ensures LastOf(frames + [f], pick, if pick(f) != "" then pick(f) else id)
  {
    var more := frames + [f];
    assert more[|frames|] == f;
    if pick(f) == "" && id != "" {
      var i :| 0 <= i < |frames| && pick(frames[i]) == id && forall k :: i < k < |frames| ==> pick(frames[k]) == "";
      assert more[i] == frames[i];
    }
  }

  predicate LastFinished(frames: seq<Frame>, i: nat) {
    && i < |frames| && frames[i].event == "workflow_finished"
    && forall k :: i < k < |frames| ==> frames[k].event != "workflow_finished"
  }

  predicate FirstEnd(frames: seq<Frame>, chat: bool, i: nat) {
    i < |frames| && IsEnd(frames[i], chat) && forall k :: 0 <= k < i ==> !IsEnd(frames[k], chat)
  }

  /** How the frames end the run: as the last finished workflow says, and without one as the first end does. */
  ghost predicate EndsAs(frames: seq<Frame>, chat: bool, done: bool, status: string) {
    && (done <==> exists i :: 0 <= i < |frames| && IsEnd(frames[i], chat))
    && (forall i: nat :: LastFinished(frames, i) ==> status == frames[i].status)
    && ((forall i :: 0 <= i < |frames| ==> frames[i].event != "workflow_finished") ==>
        forall i: nat :: FirstEnd(frames, chat, i) ==>
          status == if frames[i].event == "error" then "failed" else "succeeded")
  }

  /** What the client that reads on holds: the last of each id, and the end the frames gave. */
  ghost predicate Told(frames: seq<Frame>, chat: bool, g: Gathered) {
    && !g.stopped
    && LastOf(frames, (f: Frame) => f.run, g.run) && LastOf(frames, (f: Frame) => f.task, g.task)
    && (if chat then LastOf(frames, (f: Frame) => f.conv, g.conv) else g.conv == "")
    && EndsAs(frames, chat, g.done, g.status)
  }

  lemma {:induction false} FramesTold(frames: seq<Frame>, chat: bool)
    ensures Told(frames, chat, GatherAll(frames, chat, false))
  {
    if frames != [] {
      var n := |frames| - 1;
      var front, f := frames[..n], frames[n];
      assert front + [f] == frames;
      assert GatherAll(frames, chat, false) == Gather(GatherAll(front, chat, false), f, chat, false);
      hide *;
      FramesTold(front, chat);
      ToldNext(front, f, chat, GatherAll(front, chat, false));
    }
  }

  lemma ToldNext(front: seq<Frame>, f: Frame, chat: bool, g: Gathered)
    requires Told(front, chat, g)
    ensures Told(front + [f], chat, Gather(g, f, chat, false))
  {
    LastOfNext(front, f, (f: Frame) => f.run, g.run);
    LastOfNext(front, f, (f: Frame) => f.task, g.task);
    if chat { LastOfNext(front, f, (f: Frame) => f.conv, g.conv); }
    EndsNext(front, f, chat, g);
    GatherIds(g, f, chat);
    hide LastOf, EndsAs, Gather;
  }

  lemma GatherIds(g: Gathered, f: Frame, chat: bool)
    requires !g.stopped
    ensures var n := Gather(g, f, chat, false);
      && !n.stopped && n.run == (if f.run != "" then f.run else g.run)
      && n.task == (if f.task != "" then f.task else g.task)
      && n.conv == if !chat then "" else if f.conv != "" then f.conv else g.conv
  {
  }

  lemma EndsNext(front: seq<Frame>, f: Frame, chat: bool, g: Gathered)
    requires !g.stopped && EndsAs(front, chat, g.done, g.status)
    ensures var n := Gather(g, f, chat, false); EndsAs(front + [f], chat, n.done, n.status)
  {
    var n, more := Gather(g, f, chat, false), front + [f];
    assert forall i :: 0 <= i < |front| ==> more[i] == front[i];
    assert more[|front|] == f;
    forall i: nat | LastFinished(more, i) ensures n.status == more[i].status {
      if i < |front| { assert LastFinished(front, i); }
    }
    forall i: nat | FirstEnd(more, chat, i) ensures i < |front| ==> FirstEnd(front, chat, i) {}
  }

  predicate FirstRun(frames: seq<Frame>, i: nat) {
    i < |frames| && frames[i].run != "" && forall k :: 0 <= k < i ==> frames[k].run == ""
  }

  /** In poll mode the client lets go at the first run id, and reads on like any other while there is none. */
  lemma {:induction false} FramesStopped(frames: seq<Frame>, chat: bool)
    ensures PollTold(frames, chat, GatherAll(frames, chat, true))
  {
    if frames != [] {
      var n := |frames| - 1;
      var front, f := frames[..n], frames[n];
      assert front + [f] == frames;
      assert forall stop :: GatherAll(frames, chat, stop) == Gather(GatherAll(front, chat, stop), f, chat, stop);
      hide *;
      FramesStopped(front, chat);
      FramesTold(front, chat);
      PollNext(front, f, chat, GatherAll(front, chat, true));
    }
  }

  ghost predicate PollTold(frames: seq<Frame>, chat: bool, g: Gathered) {
    if forall i :: 0 <= i < |frames| ==> frames[i].run == "" then g == GatherAll(frames, chat, false)
    else g.stopped && exists i: nat :: FirstRun(frames, i) && g.run == frames[i].run
  }

  lemma PollNext(front: seq<Frame>, f: Frame, chat: bool, g: Gathered)
    requires PollTold(front, chat, g) && Told(front, chat, GatherAll(front, chat, false))
    requires forall stop ::
      GatherAll(front + [f], chat, stop) == Gather(GatherAll(front, chat, stop), f, chat, stop)
    ensures PollTold(front + [f], chat, Gather(g, f, chat, true))
  {
    var frames := front + [f];
    hide EndsAs, GatherAll;
    assert forall i :: 0 <= i < |front| ==> frames[i] == front[i];
    assert frames[|front|] == f;
    if forall i :: 0 <= i < |front| ==> front[i].run == "" {
      NoneYet(front, g.run);
      if f.run != "" { assert FirstRun(frames, |front|); }
    } else {
      var i: nat :| FirstRun(front, i) && g.run == front[i].run;
      assert FirstRun(frames, i) && frames[i].run != "";
    }
  }

  lemma NoneYet(frames: seq<Frame>, id: string)
    requires LastOf(frames, (f: Frame) => f.run, id) && forall i :: 0 <= i < |frames| ==> frames[i].run == ""
    ensures id == ""
  {
  }

  // ---------- reconciling ----------

  /** One status poll: an answer with a status, an error worth polling again, or one polling cannot cure. */
  datatype Poll = Answer(status: string) | Transient | Permanent

  datatype Reconciled = Known(status: string) | Unknown

  function DifyTerminal(status: string): bool { status != "" && status != "running" }

  predicate Conclusive(p: Poll) { p.Answer? && DifyTerminal(p.status) }

  function FirstAnswer(polls: seq<Poll>): Reconciled {
    if polls == [] then Unknown
    else if Conclusive(polls[0]) then Known(polls[0].status)
    else if polls[0].Permanent? then Unknown
    else FirstAnswer(polls[1..])
  }

  /** polls are the answers before the deadline. */
  method ReconcileLoop(polls: seq<Poll>) returns (r: Reconciled)
    ensures r == FirstAnswer(polls)
  {
    var i := 0;
    while i < |polls|
      invariant 0 <= i <= |polls|
      invariant FirstAnswer(polls) == FirstAnswer(polls[i..])
    {
      if polls[i].Answer? && DifyTerminal(polls[i].status) { return Known(polls[i].status); }
      if polls[i].Permanent? { return Unknown; }
      i := i + 1;
    }
    r := Unknown;
  }

  // ---------- the provider ----------

  datatype Outcome = Ok | Partial | Failed | Untracked

  function OutcomeOf(status: string): (o: Outcome)
    ensures o == Ok <==> status == "succeeded"
    ensures o == Partial <==> status == "partial-succeeded"
    ensures o != Untracked
  {
    if status == "succeeded" then Ok
    else if status == "partial-succeeded" then Partial
    else Failed
  }

  /** Result: an outcome without an error can never be retried; an error may be, when transient. */
  datatype Result = Done(outcome: Outcome, run: string) | Error(transient: bool)

  /** One attempt as the outside world plays it. cancelled: the run's context is done by the time the
      stream returns; late: only by the time the retry loop looks. polls are the status answers before
      the reconcile deadline. */
  datatype World = World(reply: Reply, cancelled: bool, late: bool, polls: seq<Poll>)

  datatype Provider = Provider(chat: bool, poll: bool)

  function Settled(r: Reconciled, run: string): Result {
    match r
    case Known(status) => Done(OutcomeOf(status), run)
    case Unknown => Done(Untracked, run)
  }

  method Run(p: Provider, w: World) returns (r: Result, notes: seq<Note>)
    ensures r == RunSpec(p, w)
    ensures w.reply.Accepted? <==> notes != [] && notes[0] == Started
  {
    if w.reply.Accepted? { SilentFrames(w.reply.frames, p.chat, p.poll); }
    var res, run, task, err;
    res, run, task, err, notes := RunStream(w.reply, p.chat, p.poll);
    var conv := if p.chat then res.conv else "";
    if p.poll && err == NoError && run != "" && !DifyTerminal(res.status) {
      var k := ReconcileLoop(w.polls);
      return Settled(k, run), notes;
    }
    if err == NoError {
      return Done(OutcomeOf(res.status), run), notes;
    }
    if w.cancelled {
      return Error(!(err.NotOpened? && err.permanent)), notes;
    }
    if run != "" {
      var k := ReconcileLoop(w.polls);
      return Settled(k, run), notes;
    }
    if p.chat && conv != "" {
      var k := ReconcileLoop(w.polls);
      return Settled(k, ""), notes;
    }
    if task != "" || err == StreamEnded {
      return Done(Untracked, ""), notes;
    }
    r := Error(!(err.NotOpened? && err.permanent));
  }

  /** The decision the provider must reach, by how the stream came out. */
  function RunSpec(p: Provider, w: World): Result {
    match w.reply
    case Refused(permanent) => Error(!permanent)
    case Accepted(frames, ending) =>
      var g := GatherAll(frames, p.chat, p.poll);
      if g.stopped then Settled(FirstAnswer(w.polls), g.run)
      else if g.done then Done(OutcomeOf(g.status), g.run)
      else if w.cancelled then Error(true)
      else if g.run != "" then Settled(FirstAnswer(w.polls), g.run)
      else if g.conv != "" then Settled(FirstAnswer(w.polls), "")
      else if g.task != "" || ending == Eof then Done(Untracked, "")
      else Error(true)
  }

  /** A frame of a run that carries something to find the run by, or that ends it. */
  predicate Telling(f: Frame, chat: bool) {
    f.run != "" || f.task != "" || (chat && f.conv != "") || IsEnd(f, chat)
  }

  /** The stream opened, so the run started, and then the read failed before any frame told which run
      it is or how it ended. The client reports this as a plain read failure. */
  predicate BlindDrop(p: Provider, w: World) {
    w.reply.Accepted? && w.reply.ending == ReadError && forall i :: 0 <= i < |w.reply.frames| ==>
      !Telling(w.reply.frames[i], p.chat)
  }

  /** What is true of anything gathered: it is nothing exactly when it tells nothing, in poll mode a captured
      run id ends the reading, and a status comes only with an end. */
  predicate Gathers(g: Gathered, chat: bool, stop: bool) {
    && (g == NOTHING <==> g.run == "" && g.task == "" && g.conv == "" && !g.done)
    && (g.stopped <==> stop && g.run != "")
    && (!chat ==> g.conv == "")
    && (!g.done ==> g.status == "")
  }

  lemma GatherKeeps(g: Gathered, f: Frame, chat: bool, stop: bool)
    requires Gathers(g, chat, stop)
    ensures Gathers(Gather(g, f, chat, stop), chat, stop)
    ensures Gather(g, f, chat, stop) == NOTHING <==> g == NOTHING && !Telling(f, chat)
  {
  }

  /** Nothing is gathered exactly from frames that tell nothing. */
  lemma {:induction false} SilentFrames(frames: seq<Frame>, chat: bool, stop: bool)
    ensures GatherAll(frames, chat, stop) == NOTHING <==> forall i :: 0 <= i < |frames| ==> !Telling(frames[i], chat)
    ensures Gathers(GatherAll(frames, chat, stop), chat, stop)
  {
    if frames != [] {
      var n := |frames| - 1;
      SilentFrames(frames[..n], chat, stop);
      GatherKeeps(GatherAll(frames[..n], chat, stop), frames[n], chat, stop);
      hide Gathers, Gather, Telling;
      assert forall i :: 0 <= i < n ==> frames[..n][i] == frames[i];
    }
  }

  /** No terminal frame arrived while the client was reading. */
  predicate Unfinished(p: Provider, w: World) {
    w.reply.Accepted? && (var g := GatherAll(w.reply.frames, p.chat, p.poll); !g.stopped && !g.done)
  }

  /** The provider reports an error exactly when nothing started, when the run was cancelled before it
      finished, or when a started run was dropped blind. */
  lemma ErrorExactly(p: Provider, w: World)
    ensures RunSpec(p, w).Error? <==>
      w.reply.Refused? || (w.cancelled && Unfinished(p, w)) || BlindDrop(p, w)
    ensures RunSpec(p, w).Error? ==> (RunSpec(p, w).transient <==> w.reply.Refused? ==> !w.reply.permanent)
  {
    if w.reply.Accepted? { SilentFrames(w.reply.frames, p.chat, p.poll); }
  }

  /** Every started run that was not dropped blind ends in a reported outcome, or untracked when the remote
      side never reported one; only a run cancelled while unfinished ends in an error, which is never
      retried. */
  lemma StartedEnds(p: Provider, w: World)
    requires w.reply.Accepted? && !BlindDrop(p, w)
    ensures RunSpec(p, w).Done? <==> !(w.cancelled && Unfinished(p, w))
    ensures RunSpec(p, w).Error? ==> Gone(w)
    ensures RunSpec(p, w).Done? ==> (
      var g, answer := GatherAll(w.reply.frames, p.chat, p.poll), FirstAnswer(w.polls);
      && RunSpec(p, w).run == g.run
      && RunSpec(p, w).outcome ==
         if g.done && !g.stopped then OutcomeOf(g.status)
         else if (g.run != "" || g.conv != "") && answer.Known? then OutcomeOf(answer.status)
         else Untracked)
  {
    ErrorExactly(p, w);
    SilentFrames(w.reply.frames, p.chat, p.poll);
  }

  /** The first answer that is an end, with only passing errors and unfinished answers before it. */
  predicate AnswersAt(polls: seq<Poll>, k: nat) {
    && k < |polls| && polls[k].Answer? && polls[k].status !in ["", "running"]
    && forall i :: 0 <= i < k ==> !polls[i].Permanent? && (polls[i].Answer? ==> polls[i].status in ["", "running"])
  }

  /** A status becomes known exactly when some poll answers with an end before any permanent error, and it is the
      first such answer. */
  lemma {:induction false} AnswerFrom(polls: seq<Poll>)
    ensures FirstAnswer(polls).Known? <==> exists k: nat :: AnswersAt(polls, k)
    ensures forall k: nat :: AnswersAt(polls, k) ==> FirstAnswer(polls) == Known(polls[k].status)
  {
    if polls != [] {
      if Conclusive(polls[0]) {
        assert AnswersAt(polls, 0);
      } else if polls[0].Answer? || polls[0].Transient? {
        var rest := polls[1..];
        AnswerFrom(rest);
        if FirstAnswer(rest).Known? {
          var k: nat :| AnswersAt(rest, k);
          assert AnswersAt(polls, k + 1);
        }
        forall k: nat | AnswersAt(polls, k) ensures FirstAnswer(rest) == Known(polls[k].status) {
          assert AnswersAt(rest, k - 1);
        }
      }
    }
  }

  // ---------- the retry loop ----------

  /** The context is done when the retry loop decides. */
  predicate Gone(w: World) { w.cancelled || w.late }

  /** How the loop may end: every attempt before the last failed in a way worth retrying, the last one gave
      the result, and a last failure worth retrying has used up the retries. */
  predicate Ends(p: Provider, worlds: seq<World>, maxRetries: int, r: Result, used: nat) {
    && 1 <= used <= |worlds| && (used == 1 || used <= maxRetries + 1)
    && r == RunSpec(p, worlds[used - 1])
    && (forall i :: 0 <= i < used - 1 ==> RunSpec(p, worlds[i]) == Error(true) && !Gone(worlds[i]))
    && (r == Error(true) && !Gone(worlds[used - 1]) ==> used > maxRetries)
  }

  lemma NotLast(p: Provider, worlds: seq<World>, maxRetries: int, used: nat, r: Result, made: nat)
    requires 1 <= used < made && Ends(p, worlds, maxRetries, r, made)
    ensures RunSpec(p, worlds[used - 1]) == Error(true) && !Gone(worlds[used - 1])
  {
    hide RunSpec, Gone;
    var i := used - 1;
    assert 0 <= i < made - 1;
  }

  /** The number of attempts and their result are determined. */
  lemma EndsOnce(p: Provider, worlds: seq<World>, maxRetries: int, r: Result, used: nat, q: Result, made: nat)
    requires Ends(p, worlds, maxRetries, r, used) && Ends(p, worlds, maxRetries, q, made)
    ensures r == q && used == made
  {
    if used < made { NotLast(p, worlds, maxRetries, used, q, made); }
    if made < used { NotLast(p, worlds, maxRetries, made, r, used); }
  }

  /** Attempts until a result, a permanent error, a cancelled context or the retry limit. worlds are
      the attempts as they would go; used of them are made. */
  method RunItem(p: Provider, worlds: seq<World>, maxRetries: int) returns (r: Result, used: nat)
    requires |worlds| > 0 && |worlds| > maxRetries
    ensures Ends(p, worlds, maxRetries, r, used)
    ensures 1 <= used <= |worlds| && r == RunSpec(p, worlds[used - 1])
    ensures forall i :: 0 <= i < used - 1 ==>
      RunSpec(p, worlds[i]) == Error(true) && !worlds[i].cancelled && !worlds[i].late
    ensures used == 1 || 1 < used <= maxRetries + 1
    ensures used > maxRetries || r.Done? || !r.transient || worlds[used - 1].cancelled || worlds[used - 1].late
  {
    used := 0;
    while true
      invariant 0 <= used <= |worlds| - 1
      invariant used > 0 ==> used <= maxRetries
      invariant forall i :: 0 <= i < used ==> RunSpec(p, worlds[i]) == Error(true) && !Gone(worlds[i])
      decreases |worlds| - used
    {
      var notes;
      r, notes := Run(p, worlds[used]);
      used := used + 1;
      if r.Done? { return; }
      if r.transient && used <= maxRetries && !Gone(worlds[used - 1]) {
        continue;
      }
      return;
    }
  }

  predicate Opened(w: World) { w.reply.Accepted? }

  /** A retry follows a started run only after a blind drop. */
  lemma RetryAfterStart(p: Provider, w: World)
    requires RunSpec(p, w) == Error(true) && !w.cancelled && Opened(w)
    ensures BlindDrop(p, w)
  {
    ErrorExactly(p, w);
  }

  /** One dispatch opens a second stream after a started run exactly when some attempt before the last
      was dropped blind. So without blind drops at most one of the attempts starts a run. */
  lemma SecondStartExactly(p: Provider, worlds: seq<World>, used: nat)
    requires 1 <= used <= |worlds|
    requires forall i :: 0 <= i < used - 1 ==> RunSpec(p, worlds[i]) == Error(true) && !Gone(worlds[i])
    ensures (exists i :: 0 <= i < used - 1 && Opened(worlds[i])) <==>
      (exists i :: 0 <= i < used - 1 && BlindDrop(p, worlds[i]))
  {
    forall i | 0 <= i < used - 1 && Opened(worlds[i]) ensures BlindDrop(p, worlds[i]) {
      RetryAfterStart(p, worlds[i]);
    }
  }

  const BLIND := World(Accepted([], ReadError), false, false, [])

  /** The failing case: a run is accepted and its stream breaks at once. With a retry allowed and a remote
      side that accepts again, one dispatch starts two runs. */
  lemma BlindDropStartsTwice(p: Provider, next: World, maxRetries: int, r: Result, used: nat)
    requires maxRetries == 1 && Opened(next) && Ends(p, [BLIND, next], maxRetries, r, used)
    ensures BlindDrop(p, BLIND) && used == 2 && Opened(BLIND) && Opened(next)
  {
    assert [BLIND, next][0] == BLIND;
    ErrorExactly(p, BLIND);
  }

  /** The same with any number of retries left: what was started blind is always attempted again. */
  lemma BlindDropIsRetried(p: Provider, worlds: seq<World>, maxRetries: int, r: Result, used: nat)
    requires maxRetries >= 1 && |worlds| > maxRetries && Ends(p, worlds, maxRetries, r, used)
    requires BlindDrop(p, worlds[0]) && !Gone(worlds[0])
    ensures used >= 2 && Opened(worlds[0])
  {
    SilentFrames(worlds[0].reply.frames, p.chat, p.poll);
  }
}
