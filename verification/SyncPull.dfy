/** The sync client's pull side: how far into one server's change log this device has applied everything.

    The server files each change set at a position above every earlier one. A reply to a request is the
    contiguous run of entries after the requested mark; broadcasts are single entries, in any order, any
    number of times, or never. */
module SyncPull {
  import opened Collections
  import opened Rows

  /** A filed change set. `hlc` is when it was written, `at` where this server filed it. */
  datatype Entry = Entry(hlc: nat, at: nat)

  /** An answer to a request for what lies after `since`. `held` is what the server held when it answered. */
  datatype Reply = Reply(since: nat, entries: set<Entry>, held: set<Entry>)

  /** `clock` is the server's; positions come from it. `partial` marks a database a snapshot is being written
      over, `landing` that its stream is open, `header` the position it was taken at. */
  datatype World = World(log: set<Entry>, clock: nat, applied: set<Entry>, mark: nat, requests: set<nat>,
                         replies: set<Reply>, partial: bool, landing: bool, header: nat, caughtUp: bool)

  const START := World({}, 0, {}, 0, {}, {}, false, false, 0, false)

  // ---- the steps --------------------------------------------------------------------------------

  ghost predicate Above(entries: set<Entry>, at: nat) {
    forall e :: e in entries ==> e.at > at
  }

  ghost predicate UpTo(entries: set<Entry>, at: nat) {
    forall e :: e in entries ==> e.at <= at
  }

  /** The server's contract: everything it holds after `since`, in position order, cut off anywhere but before
      the first. */
  ghost predicate Contiguous(log: set<Entry>, since: nat, entries: set<Entry>) {
    && entries <= log && Above(entries, since)
    && (forall e, f :: e in log && f in entries && since < e.at <= f.at ==> e in entries)
    && (entries == {} ==> UpTo(log, since))
  }

  /** The furthest position among a reply's entries. */
  ghost predicate Furthest(entries: set<Entry>, at: nat) {
    (exists e :: e in entries && e.at == at) && UpTo(entries, at)
  }

  datatype Step =
    | File(e: Entry)
    | Request
    | Answer(since: nat, entries: set<Entry>)
    | Broadcast(e: Entry)
    | Deliver(reply: Reply, at: nat)
    | BeginSnapshot
    | ResumeSnapshot
    | FinishSnapshot(extra: set<Entry>)
    | Close

  /** A reply handled: its entries applied, then the mark raised to the furthest of them, if that is a raise;
      only then does the client ask again. An empty reply ends the pull. */
  ghost function Delivered(w: World, reply: Reply, at: nat): World {
    var applied := w.(applied := w.applied + reply.entries);
    if reply.entries == {} then applied.(caughtUp := true)
    else if at > w.mark then applied.(mark := at, requests := w.requests + {at})
    else applied
  }

  ghost function Next(w: World, step: Step): World {
    match step
    case File(e) => if e.at > w.clock then w.(log := w.log + {e}, clock := e.at) else w
    case Request => if w.partial then w else w.(requests := w.requests + {w.mark}, caughtUp := false)
    case Answer(since, entries) =>
      if since !in w.requests || !Contiguous(w.log, since, entries) then w
      else w.(replies := w.replies + {Reply(since, entries, w.log)})
    case Broadcast(e) => if e in w.log && !w.landing then w.(applied := w.applied + {e}) else w
    case Deliver(reply, at) =>
      if reply !in w.replies || w.landing || (reply.entries != {} && !Furthest(reply.entries, at)) then w
      else Delivered(w, reply, at)
    case BeginSnapshot =>
      if w.landing then w else w.(partial := true, landing := true, header := w.clock, caughtUp := false)
    case ResumeSnapshot => if w.partial then w.(landing := true, caughtUp := false) else w
    case FinishSnapshot(extra) =>
      if !w.landing then w
      else w.(partial := false, landing := false, mark := w.header,
          applied := (set e | e in w.log && e.at <= w.header) + (extra * w.log))
    case Close => w.(requests := {}, replies := {}, landing := false, caughtUp := false)
  }

  ghost function Run(w: World, steps: seq<Step>): World {
    if steps == [] then w else Next(Run(w, steps[..|steps| - 1]), steps[|steps| - 1])
  }

  // ---- the invariant ----------------------------------------------------------------------------

  /** Everything filed at or below `at` has been applied. */
  ghost predicate AppliedTo(w: World, at: nat) {
    forall e :: e in w.log && e.at <= at ==> e in w.applied
  }

  /** A position the client may go on from. While a snapshot lands that is one the snapshot will bring. */
  ghost predicate Covered(w: World, at: nat) {
    at <= w.clock && if w.partial then at <= w.header else AppliedTo(w, at)
  }

  /** A reply is a contiguous run after a covered mark. */
  ghost predicate Trusted(w: World, reply: Reply) {
    && Covered(w, reply.since) && Above(reply.entries, reply.since) && reply.entries <= w.log && reply.held <= w.log
    && (forall e, f :: e in w.log && f in reply.entries && reply.since < e.at <= f.at ==> e in reply.entries)
    && (reply.entries == {} ==> UpTo(reply.held, reply.since))
  }

  ghost predicate Sound(w: World) {
    && UpTo(w.log, w.clock) && w.mark <= w.clock && w.header <= w.clock
    && (!w.partial ==> AppliedTo(w, w.mark))
    && (forall since :: since in w.requests ==> Covered(w, since))
    && (forall reply :: reply in w.replies ==> Trusted(w, reply))
    && (w.landing ==> w.partial)
    && (w.partial && !w.landing ==> w.requests == {} && w.replies == {})
  }

  lemma FileKeepsSound(w: World, e: Entry)
    requires Sound(w) && e.at > w.clock
    ensures Sound(Next(w, File(e)))
  {
    var now := Next(w, File(e));
    forall since | since in now.requests ensures Covered(now, since) {
      assert Covered(w, since);
    }
    forall reply | reply in now.replies ensures Trusted(now, reply) {
      assert Trusted(w, reply);
    }
  }

  /** A delivered reply leaves nothing out at or below its furthest entry. */
  lemma RunIsComplete(w: World, reply: Reply, at: nat)
    requires Sound(w) && !w.partial && Trusted(w, reply) && Furthest(reply.entries, at)
    ensures at <= w.clock && forall e :: e in w.log && e.at <= at ==> e in w.applied || e in reply.entries
  {
    var f :| f in reply.entries && f.at == at;
    forall e | e in w.log && e.at <= at ensures e in w.applied || e in reply.entries {
      if e.at > reply.since {
        assert reply.since < e.at <= f.at;
      }
    }
  }

  lemma DeliverKeepsSound(w: World, reply: Reply, at: nat)
    requires Sound(w)
    ensures Sound(Next(w, Deliver(reply, at)))
  {
    var now := Next(w, Deliver(reply, at));
    if reply in w.replies && !w.landing && (reply.entries == {} || Furthest(reply.entries, at)) {
      assert Trusted(w, reply);
      if reply.entries != {} {
        RunIsComplete(w, reply, at);
      }
      forall since | since in now.requests ensures Covered(now, since) {
        if since in w.requests {
          assert Covered(w, since);
        }
      }
      forall r | r in now.replies ensures Trusted(now, r) {
        assert Trusted(w, r);
      }
    }
  }

  lemma SnapshotKeepsSound(w: World, step: Step)
    requires Sound(w) && (step.BeginSnapshot? || step.FinishSnapshot? || step.ResumeSnapshot?)
    ensures Sound(Next(w, step))
  {
    var now := Next(w, step);
    forall since | since in now.requests ensures Covered(now, since) {
      assert Covered(w, since);
    }
    forall reply | reply in now.replies ensures Trusted(now, reply) {
      assert Trusted(w, reply);
    }
  }

  lemma SoundStep(w: World, step: Step)
    requires Sound(w)
    ensures Sound(Next(w, step))
  {
    match step
    case File(e) =>
      if e.at > w.clock {
        FileKeepsSound(w, e);
      }
    case Deliver(reply, at) => DeliverKeepsSound(w, reply, at);
    case BeginSnapshot => SnapshotKeepsSound(w, step);
    case ResumeSnapshot => SnapshotKeepsSound(w, step);
    case FinishSnapshot(_) => SnapshotKeepsSound(w, step);
    case Answer(since, entries) => AnswerKeepsSound(w, since, entries);
    case _ => AsideKeepsSound(w, step);
  }

  lemma AnswerKeepsSound(w: World, since: nat, entries: set<Entry>)
    requires Sound(w)
    ensures Sound(Next(w, Answer(since, entries)))
  {
    if since in w.requests && Contiguous(w.log, since, entries) {
      var now := Next(w, Answer(since, entries));
      forall s | s in now.requests ensures Covered(now, s) {
        assert Covered(w, s);
      }
      forall reply | reply in now.replies ensures Trusted(now, reply) {
        if reply in w.replies {
          assert Trusted(w, reply);
        }
      }
    }
  }

  lemma AsideKeepsSound(w: World, step: Step)
    requires Sound(w) && (step.Request? || step.Broadcast? || step.Close?)
    ensures Sound(Next(w, step))
  {
    var now := Next(w, step);
    forall since | since in now.requests ensures Covered(now, since) {
      if since in w.requests {
        assert Covered(w, since);
      }
    }
    forall reply | reply in now.replies ensures Trusted(now, reply) {
      assert Trusted(w, reply);
    }
  }

  lemma {:induction false} RunKeepsSound(w: World, steps: seq<Step>)
    requires Sound(w)
    ensures Sound(Run(w, steps))
  {
    if steps != [] {
      RunKeepsSound(w, steps[..|steps| - 1]);
      SoundStep(Run(w, steps[..|steps| - 1]), steps[|steps| - 1]);
    }
  }

  // ---- what the mark promises -------------------------------------------------------------------

  /** In every run, every server log entry at or below the received mark has been applied, outside a snapshot
      that is still landing. */
  lemma MarkIsApplied(steps: seq<Step>, e: Entry)
    requires var w := Run(START, steps); !w.partial && e in w.log && e.at <= w.mark
    ensures e in Run(START, steps).applied
  {
    RunKeepsSound(START, steps);
  }

  /** Only an ordered reply that reaches further, and a finished snapshot, move the mark. */
  lemma OnlyRepliesAndSnapshotsMoveMark(w: World, step: Step)
    requires Next(w, step).mark != w.mark
    ensures || (step.Deliver? && step.reply in w.replies && !w.landing && Next(w, step).mark == step.at > w.mark)
            || (step.FinishSnapshot? && w.landing && Next(w, step).mark == w.header)
  {
  }

  /** The pull has ended only once everything the server held when it answered is here. */
  lemma CaughtUpMeansComplete(w: World, reply: Reply, at: nat)
    requires Sound(w) && !w.caughtUp && Next(w, Deliver(reply, at)).caughtUp
    ensures reply.held <= Next(w, Deliver(reply, at)).applied
  {
    assert Trusted(w, reply);
  }

  /** A pull is reported finished by nothing but an empty ordered reply, and a new request takes the report back. */
  lemma OnlyEmptyRepliesEndPull(w: World, step: Step)
    ensures !w.caughtUp && Next(w, step).caughtUp ==>
              step.Deliver? && step.reply in w.replies && step.reply.entries == {} && !w.landing
    ensures step.Request? && !w.partial ==> !Next(w, step).caughtUp && w.mark in Next(w, step).requests
  {
  }

  // ---- the pull chain ---------------------------------------------------------------------------

  ghost function Beyond(w: World): set<Entry> {
    set e | e in w.log && e.at > w.mark
  }

  /** A reply asks again only by bringing the mark closer to the log's end; one that does not ends its chain. So
      a chain is no longer than the log. */
  lemma ChainsEnd(w: World, reply: Reply, at: nat)
    requires Sound(w) && reply in w.replies && !w.landing && Furthest(reply.entries, at)
    ensures var now := Next(w, Deliver(reply, at));
            if at > w.mark then |Beyond(now)| < |Beyond(w)| && now.requests == w.requests + {at}
            else now.requests == w.requests && now.mark == w.mark
  {
    var now := Next(w, Deliver(reply, at));
    assert Trusted(w, reply);
    if at > w.mark {
      var e :| e in reply.entries && e.at == at;
      SmallerSet(Beyond(now), Beyond(w), e);
    }
  }

  /** A broadcast is worth nothing to the mark: an entry missed below it would otherwise never come again. */
  lemma MissedBroadcastComesAgain(w: World, e: Entry)
    requires Sound(w) && !w.partial && e in w.log && e !in w.applied
    ensures e.at > w.mark && forall since, entries :: since == w.mark && Contiguous(w.log, since, entries) ==>
            entries != {}
  {
  }

  /** A broadcast of a filed entry is applied and changes nothing else, unless a snapshot is landing: then it is let
      go. */
  lemma BroadcastIsApplied(w: World, e: Entry)
    requires e in w.log
    ensures var now := Next(w, Broadcast(e));
            if w.landing then now == w
            else e in now.applied && now.applied == w.applied + {e} && now == w.(applied := now.applied)
  {
  }

  /** The state after a pull that asks, is sent all that is filed past its mark, and asks again. */
  ghost function Pulled(w: World, at: nat): World {
    var asked := Next(w, Request);
    var first := Next(Next(asked, Answer(w.mark, Beyond(w))), Deliver(Reply(w.mark, Beyond(w), w.log), at));
    Next(Next(first, Answer(at, {})), Deliver(Reply(at, {}, w.log), at))
  }

  /** From any state a run reaches outside a snapshot, a pull that is answered in full ends caught up, with everything
      filed applied and the mark at the end of the log. */
  lemma PullCatchesUp(steps: seq<Step>, at: nat)
    requires var w := Run(START, steps); !w.partial && Furthest(Beyond(w), at)
    ensures var w := Run(START, steps);
            var done := Pulled(w, at);
            done.caughtUp && done.log == w.log && w.log <= done.applied && done.mark == at
  {
    var w := Run(START, steps);
    RunKeepsSound(START, steps);
    var asked := Next(w, Request);
    assert Contiguous(w.log, w.mark, Beyond(w));
    var reply := Reply(w.mark, Beyond(w), w.log);
    var first := Next(Next(asked, Answer(w.mark, Beyond(w))), Deliver(reply, at));
    assert first == Delivered(Next(asked, Answer(w.mark, Beyond(w))), reply, at);
    assert first.mark == at && at in first.requests && w.log <= first.applied by {
      forall e | e in w.log ensures e in first.applied {
        assert e in Beyond(w) || e in w.applied;
      }
    }
    assert UpTo(w.log, at) by {
      forall e | e in w.log ensures e.at <= at {
        assert e in Beyond(w) || e.at <= w.mark < at;
      }
    }
    assert Contiguous(w.log, at, {});
  }

  /** A snapshot that lands leaves everything filed before it began applied, and the mark there. */
  lemma SnapshotBringsAll(steps: seq<Step>, extra: set<Entry>)
    requires !Run(START, steps).landing
    ensures var w := Run(START, steps);
            var done := Next(Next(w, BeginSnapshot), FinishSnapshot(extra));
            !done.partial && !done.landing && done.mark == w.clock && w.log <= done.applied <= done.log
  {
    RunKeepsSound(START, steps);
  }

  /** While a snapshot is unfinished, across closes and resumptions, only a fresh one after it broke off moves the
      position it was taken at. No step moves the mark or asks the server for changes before it is whole. */
  lemma SnapshotKeepsItsPosition(w: World, step: Step)
    requires Sound(w) && w.partial && Next(w, step).partial
    ensures w.landing || !step.BeginSnapshot? ==> Next(w, step).header == w.header
    ensures Next(w, step).mark == w.mark && Next(w, step).requests <= w.requests
  {
  }

  // ---- the code ---------------------------------------------------------------------------------

  /** A change set on the wire: its position travels as a cursor unless it equals the write time. */
  datatype WireSet = WireSet(hlc: nat, cursor: Option<nat>)

  function Resume(s: WireSet): nat {
    if s.cursor.Some? then s.cursor.value else s.hlc
  }

  /** How the server puts an entry on the wire: no cursor where it would repeat the write time. */
  function Wire(e: Entry): WireSet {
    WireSet(e.hlc, if e.at == e.hlc then None else Some(e.at))
  }

  function Decoded(sets: seq<WireSet>): set<Entry> {
    set i | 0 <= i < |sets| :: Entry(sets[i].hlc, Resume(sets[i]))
  }

  /** What the client reads off the wire is what the server filed, and no cursor repeats the write time. */
  lemma WireRoundTrip(entries: seq<Entry>)
    ensures Decoded(seq(|entries|, i requires 0 <= i < |entries| => Wire(entries[i]))) == set e | e in entries
    ensures forall e :: e in entries ==> Wire(e).cursor != Some(e.hlc)
  {
    var sets := seq(|entries|, i requires 0 <= i < |entries| => Wire(entries[i]));
    forall i | 0 <= i < |entries| ensures Entry(sets[i].hlc, Resume(sets[i])) == entries[i] {
    }
    forall e | e in entries ensures e in Decoded(sets) {
      var i :| 0 <= i < |entries| && entries[i] == e;
      assert Entry(sets[i].hlc, Resume(sets[i])) == e;
    }
  }

  /** The greatest resume position of a reply; none for an empty one. */
  method ReplyWatermark(sets: seq<WireSet>) returns (at: Option<nat>)
    ensures at.None? <==> Decoded(sets) == {}
    ensures at.Some? ==> Furthest(Decoded(sets), at.value)
  {
    at := None;
    for i := 0 to |sets|
      invariant at.None? <==> i == 0
      invariant at.Some? ==> (exists j :: 0 <= j < i && Resume(sets[j]) == at.value) && forall j :: 0 <= j < i ==>
                Resume(sets[j]) <= at.value
    {
      if at.None? || Resume(sets[i]) > at.value {
        at := Some(Resume(sets[i]));
      }
    }
    if at.Some? {
      var j :| 0 <= j < |sets| && Resume(sets[j]) == at.value;
      assert Entry(sets[j].hlc, Resume(sets[j])) in Decoded(sets);
    }
  }

  class Receiver {
    var applied: set<Entry>
    var mark: nat
    var partial: bool
    var landing: bool
    var header: nat
    var caughtUp: bool
    ghost var log: set<Entry>
    ghost var clock: nat
    ghost var requests: set<nat>
    ghost var replies: set<Reply>

    ghost function Now(): World
      reads this
    {
      World(log, clock, applied, mark, requests, replies, partial, landing, header, caughtUp)
    }

    /** An ordered reply. True when the client asks again. */
    method HandleReply(sets: seq<WireSet>, ghost reply: Reply) returns (again: bool)
      requires Sound(Now()) && reply in replies && reply.entries == Decoded(sets)
      modifies this`applied, this`mark, this`caughtUp, this`requests
      ensures Sound(Now()) && mark >= old(mark) && (again <==> mark > old(mark))
      ensures exists at :: Now() == Next(old(Now()), Deliver(reply, at))
    {
      ghost var was := Now();
      if landing {
        assert Now() == Next(was, Deliver(reply, 0));
        return false;
      }
      if |sets| == 0 {
        caughtUp := true;
      }
      applied := applied + Decoded(sets);
      var resume := ReplyWatermark(sets);
      again := resume.Some? && resume.value > mark;
      ghost var at := if resume.Some? then resume.value else 0;
      if again {
        mark := resume.value;
        requests := requests + {mark};
      }
      assert resume.None? ==> |sets| == 0 by {
        assert |sets| > 0 ==> Entry(sets[0].hlc, Resume(sets[0])) in Decoded(sets);
      }
      assert Now() == Next(was, Deliver(reply, at));
      DeliverKeepsSound(was, reply, at);
    }

    /** A broadcast is applied and moves nothing. */
    method HandleBroadcast(s: WireSet)
      requires Sound(Now()) && Entry(s.hlc, Resume(s)) in log
      modifies this`applied
      ensures Sound(Now()) && mark == old(mark) && Now() == Next(old(Now()), Broadcast(Entry(s.hlc, Resume(s))))
    {
      ghost var was := Now();
      if !landing {
        applied := applied + {Entry(s.hlc, Resume(s))};
      }
      AsideKeepsSound(was, Broadcast(Entry(s.hlc, Resume(s))));
    }
  }
}
