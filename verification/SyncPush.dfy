/** The sync client's push side: which of this device's own writes one server is known to hold.

    An HLC is a natural number, greater for a later write; 0 stands for "none yet". The channel may lose,
    delay, duplicate and reorder acknowledgements. The server acknowledges a push only after applying it. */
module SyncPush {
  import opened Collections

  type Hlc = nat
  type RequestId = nat

  /** One push: the own writes past `since` and up to `upTo`, as they were read. */
  datatype Batch = Batch(since: Hlc, upTo: Hlc, writes: set<Hlc>)

  /** Where a recovery from a refused pull stands: waiting for a push's ack, or taking the snapshot, having
      last read `seen`. */
  datatype Recovery = NoRecovery | Awaiting(id: RequestId) | Transferring(seen: set<Hlc>)

  /** `lastSent`, `pending`, `nextId` and `watching` live in memory, `persisted` survives a restart. `sent`,
      `served` and `landed` are the channel's and the server's: every push ever sent, the pushes the server
      has answered, the writes it holds. `confirmed` collects the writes of every push whose ack arrived
      and was matched. */
  datatype World = World(own: set<Hlc>, lastSent: Hlc, persisted: Hlc, pending: map<RequestId, Hlc>, nextId: RequestId,
                         watching: bool, open: bool, recovery: Recovery,
                         sent: map<RequestId, Batch>, served: set<RequestId>, landed: set<Hlc>, confirmed: set<Hlc>)

  const START := World({}, 0, 0, map[], 0, false, false, NoRecovery, map[], {}, {}, {})

  // ---- the client's moves -----------------------------------------------------------------------

  function Unsent(w: World): set<Hlc> {
    set h | h in w.own && h > w.lastSent
  }

  /** Pushing is held off while there is no session and while a snapshot is landing. */
  predicate Held(w: World) {
    !w.open || !w.watching || w.recovery.Transferring?
  }

  /** A read returns a non-empty run of unsent writes, in order, or nothing when there are none. */
  predicate Readable(w: World, upTo: Hlc) {
    upTo in Unsent(w)
  }

  function Window(own: set<Hlc>, since: Hlc, upTo: Hlc): set<Hlc> {
    set h | h in own && since < h <= upTo
  }

  function Pushed(w: World, upTo: Hlc): World {
    var batch := Batch(w.lastSent, upTo, Window(w.own, w.lastSent, upTo));
    w.(nextId := w.nextId + 1, sent := w.sent[w.nextId := batch], pending := w.pending[w.nextId := upTo])
  }

  /** An acknowledged push raises the mark, never lowers it, and drops every pending push the mark covers. */
  function Promoted(w: World, id: RequestId): World
    requires id in w.pending
  {
    var mark := if w.pending[id] > w.lastSent then w.pending[id] else w.lastSent;
    w.(lastSent := mark,
       persisted := if w.pending[id] > w.lastSent then mark else w.persisted,
       pending := Above(w.pending - {id}, mark),
       confirmed := if id in w.sent then w.confirmed + w.sent[id].writes else w.confirmed)
  }

  function Above(pending: map<RequestId, Hlc>, mark: Hlc): map<RequestId, Hlc> {
    map i | i in pending && pending[i] > mark :: pending[i]
  }

  /** One turn of the recovery's drain: send the next batch and wait, or, with nothing left past the mark,
      take the snapshot; held off, give up. */
  function Drained(w: World, upTo: Hlc): World {
    if Held(w) then w.(recovery := NoRecovery)
    else if Unsent(w) == {} then w.(recovery := Transferring(w.own))
    else if Readable(w, upTo) then Pushed(w, upTo).(recovery := Awaiting(w.nextId))
    else w.(recovery := NoRecovery)
  }

  /** `Disconnect` is a deliberate one or the end of the process; an earlier process's acks never reach a
      later one, so request ids count on. */
  datatype Step =
    | LocalWrite(h: Hlc)
    | Open
    | Handshake
    | Push(upTo: Hlc)
    | ServerApply(id: RequestId)
    | Ack(id: RequestId, next: Hlc)
    | ServerError
    | Close
    | Disconnect
    | SnapshotRequired(next: Hlc)
    | SnapshotDone

  function Next(w: World, step: Step): World {
    match step
    case LocalWrite(h) =>
      if h > 0 && forall g :: g in w.own ==> g < h then w.(own := w.own + {h}) else w
    case Open => w.(open := true)
    case Handshake =>
      w.(open := true, watching := true, lastSent := if w.persisted > w.lastSent then w.persisted else w.lastSent)
    case Push(upTo) => if Held(w) || !Readable(w, upTo) then w else Pushed(w, upTo)
    case ServerApply(id) =>
      if id !in w.sent then w else w.(landed := w.landed + w.sent[id].writes, served := w.served + {id})
    case Ack(id, next) =>
      if id !in w.served || id !in w.pending then w
      else
        var p := Promoted(w, id);
        if p.recovery.Awaiting? && p.recovery.id !in p.pending then Drained(p, next) else p
    case ServerError => if w.recovery.Awaiting? then w.(recovery := NoRecovery) else w
    case Close => w.(open := false, recovery := NoRecovery)
    case Disconnect => w.(open := false, watching := false, lastSent := 0, pending := map[], recovery := NoRecovery)
    case SnapshotRequired(next) => if w.recovery.Transferring? then w else Drained(w, next)
    case SnapshotDone => if w.recovery.Transferring? then w.(recovery := NoRecovery) else w
  }

  function Run(w: World, steps: seq<Step>): World {
    if steps == [] then w else Next(Run(w, steps[..|steps| - 1]), steps[|steps| - 1])
  }

  // ---- the invariant ----------------------------------------------------------------------------

  /** Every own write at or below `mark` is among `writes`. */
  ghost predicate Covers(w: World, mark: Hlc, writes: set<Hlc>) {
    forall h :: h in w.own && h <= mark ==> h in writes
  }

  /** A push started from an acknowledged mark and carries everything between its ends. */
  ghost predicate Faithful(w: World, id: RequestId)
    requires id in w.sent
  {
    var b := w.sent[id];
    && id < w.nextId && b.upTo in w.own && b.since < b.upTo
    && Covers(w, b.since, w.confirmed)
    && Covers(w, b.upTo, w.confirmed + b.writes)
    && (forall h :: h in b.writes ==> h in w.own && b.since < h <= b.upTo)
    && (id in w.served ==> b.writes <= w.landed)
  }

  ghost predicate Sound(w: World) {
    && (forall id :: id in w.sent ==> Faithful(w, id))
    && (forall id :: id in w.pending ==> id in w.sent && w.pending[id] == w.sent[id].upTo && w.pending[id] > w.lastSent)
    && w.served <= w.sent.Keys
    && Covers(w, w.lastSent, w.confirmed) && Covers(w, w.persisted, w.confirmed)
    && w.confirmed <= w.landed
    && (w.lastSent == 0 || w.lastSent in w.own) && (w.persisted == 0 || w.persisted in w.own)
    && (w.watching || w.pending != map[] ==> w.persisted <= w.lastSent)
    && (forall h :: h in w.own ==> h > 0)
    && (w.recovery.Transferring? ==> w.recovery.seen <= w.confirmed)
  }

  lemma WriteKeepsSound(w: World, h: Hlc)
    requires Sound(w)
    ensures Sound(Next(w, LocalWrite(h)))
  {
    var now := Next(w, LocalWrite(h));
    forall id | id in now.sent ensures Faithful(now, id) {
      assert Faithful(w, id);
    }
  }

  lemma PushKeepsSound(w: World, upTo: Hlc)
    requires Sound(w) && w.watching && Readable(w, upTo)
    ensures Sound(Pushed(w, upTo))
  {
    var now := Pushed(w, upTo);
    forall id | id in now.sent ensures Faithful(now, id) {
      if id == w.nextId {
        assert forall h :: h in w.own && h <= upTo ==> h in w.confirmed || h in now.sent[id].writes;
      } else {
        assert Faithful(w, id);
      }
    }
  }

  lemma PromoteKeepsSound(w: World, id: RequestId)
    requires Sound(w) && id in w.pending && id in w.served
    ensures Sound(Promoted(w, id)) && Promoted(w, id).lastSent > w.lastSent
  {
    var now := Promoted(w, id);
    assert Faithful(w, id);
    forall i | i in now.sent ensures Faithful(now, i) {
      assert Faithful(w, i);
    }
  }

  lemma DrainKeepsSound(w: World, next: Hlc)
    requires Sound(w)
    ensures Sound(Drained(w, next))
  {
    if !Held(w) && Unsent(w) != {} && Readable(w, next) {
      PushKeepsSound(w, next);
      SoundWithRecovery(Pushed(w, next), Awaiting(w.nextId));
    } else {
      NothingLeftIsConfirmed(w);
      SoundWithRecovery(w, Drained(w, next).recovery);
    }
  }

  /** Soundness looks at the recovery only while it is taking a snapshot. */
  lemma SoundWithRecovery(w: World, r: Recovery)
    ensures Sound(w) && (r.Transferring? ==> r.seen <= w.confirmed) ==> Sound(w.(recovery := r))
  {
    if Sound(w) {
      forall id | id in w.sent ensures Faithful(w.(recovery := r), id) {
        assert Faithful(w, id);
      }
    }
  }

  lemma SoundStep(w: World, step: Step)
    requires Sound(w)
    ensures Sound(Next(w, step))
  {
    match step
    case LocalWrite(h) => WriteKeepsSound(w, h);
    case Push(upTo) =>
      if !Held(w) && Readable(w, upTo) {
        PushKeepsSound(w, upTo);
      }
    case Ack(id, next) => AckKeepsSound(w, id, next);
    case SnapshotRequired(next) => DrainKeepsSound(w, next);
    case Disconnect => ForgettingKeepsSound(w);
    case Handshake => SeedKeepsSound(w);
    case ServerApply(id) => ApplyKeepsSound(w, id);
    case _ => SoundWithRecovery(w, NoRecovery);
  }

  lemma AckKeepsSound(w: World, id: RequestId, next: Hlc)
    requires Sound(w)
    ensures Sound(Next(w, Ack(id, next)))
  {
    if id in w.served && id in w.pending {
      PromoteKeepsSound(w, id);
      DrainKeepsSound(Promoted(w, id), next);
    }
  }

  lemma ForgettingKeepsSound(w: World)
    requires Sound(w)
    ensures Sound(Next(w, Disconnect))
  {
    var now := Next(w, Disconnect);
    forall id | id in now.sent ensures Faithful(now, id) {
      assert Faithful(w, id);
    }
  }

  lemma SeedKeepsSound(w: World)
    requires Sound(w)
    ensures Sound(Next(w, Handshake))
  {
    var now := Next(w, Handshake);
    forall id | id in now.sent ensures Faithful(now, id) {
      assert Faithful(w, id);
    }
  }

  lemma ApplyKeepsSound(w: World, id: RequestId)
    requires Sound(w)
    ensures Sound(Next(w, ServerApply(id)))
  {
    var now := Next(w, ServerApply(id));
    forall i | i in now.sent ensures Faithful(now, i) {
      assert Faithful(w, i);
    }
  }

  lemma {:induction false} RunKeepsSound(w: World, steps: seq<Step>)
    requires Sound(w)
    ensures Sound(Run(w, steps))
  {
    if steps != [] {
      RunKeepsSound(w, steps[..|steps| - 1]);
      SoundStep(Run(w, steps[..|steps| - 1]), steps[|steps| - 1]);
    }
  }

  // ---- what the marks promise -------------------------------------------------------------------

  /** In every run, each own write at or below the sent mark, in memory or persisted, has been acknowledged,
      and the server holds it. */
  lemma MarksAreAcknowledged(steps: seq<Step>, h: Hlc)
    requires var w := Run(START, steps); h in w.own && (h <= w.lastSent || h <= w.persisted)
    ensures h in Run(START, steps).confirmed && h in Run(START, steps).landed
  {
    RunKeepsSound(START, steps);
  }

  /** The persisted mark never moves back. */
  lemma PersistedNeverFalls(w: World, step: Step)
    requires Sound(w)
    ensures Next(w, step).persisted >= w.persisted
  {
  }

  lemma {:induction false} PersistedClimbs(w: World, steps: seq<Step>)
    requires Sound(w)
    ensures Run(w, steps).persisted >= w.persisted
  {
    if steps != [] {
      var before := Run(w, steps[..|steps| - 1]);
      RunKeepsSound(w, steps[..|steps| - 1]);
      PersistedClimbs(w, steps[..|steps| - 1]);
      PersistedNeverFalls(before, steps[|steps| - 1]);
    }
  }

  /** A pending push dropped because the mark covers it had nothing left to confirm: its writes have all been
      acknowledged through other pushes. */
  lemma PrunedPushesHaveLanded(w: World, id: RequestId, other: RequestId)
    requires Sound(w) && id in w.served && id in w.pending
    requires other in w.pending && other !in Promoted(w, id).pending
    ensures w.sent[other].writes <= Promoted(w, id).confirmed && w.sent[other].writes <= w.landed
  {
    PromoteKeepsSound(w, id);
    assert Faithful(w, other) && Faithful(w, id);
  }

  /** Nothing is lost the other way: a write no ack has covered is still past the mark, so the next read after
      any handshake offers it again. */
  lemma UnconfirmedStayUnsent(steps: seq<Step>, h: Hlc)
    requires var w := Run(START, steps); h in w.own && h !in w.confirmed
    ensures h in Unsent(Run(START, steps + [Handshake]))
  {
    RunKeepsSound(START, steps);
    assert (steps + [Handshake])[..|steps|] == steps;
  }

  lemma DrainKeepsMarks(w: World, next: Hlc)
    ensures Drained(w, next).confirmed == w.confirmed && Drained(w, next).persisted == w.persisted
  {
  }

  /** A matched ack of a push carries the persisted mark up to that push's end. */
  lemma AckPersists(w: World, id: RequestId, next: Hlc)
    requires Sound(w) && id in w.served && id in w.pending
    ensures Next(w, Ack(id, next)).persisted >= w.sent[id].upTo
    ensures w.sent[id].writes <= Next(w, Ack(id, next)).confirmed
  {
    DrainKeepsMarks(Promoted(w, id), next);
  }

  /** Every acknowledged write is at or below the mark that survives a restart. */
  ghost predicate Remembered(w: World) {
    forall h :: h in w.confirmed ==> h <= w.persisted
  }

  lemma PromotedIsRemembered(w: World, id: RequestId)
    requires Sound(w) && Remembered(w) && id in w.pending
    ensures Remembered(Promoted(w, id))
  {
    assert Faithful(w, id);
  }

  lemma RememberedStep(w: World, step: Step)
    requires Sound(w) && Remembered(w)
    ensures Remembered(Next(w, step))
  {
    match step
    case Ack(id, next) =>
      if id in w.served && id in w.pending {
        PromotedIsRemembered(w, id);
        DrainKeepsMarks(Promoted(w, id), next);
      }
    case SnapshotRequired(next) => DrainKeepsMarks(w, next);
    case _ =>
  }

  lemma {:induction false} RunRemembers(w: World, steps: seq<Step>)
    requires Sound(w) && Remembered(w)
    ensures Remembered(Run(w, steps))
  {
    if steps != [] {
      var before := steps[..|steps| - 1];
      RunKeepsSound(w, before);
      RunRemembers(w, before);
      RememberedStep(Run(w, before), steps[|steps| - 1]);
    }
  }

  /** In every run, a write an ack has covered is never offered again, not even by the session after a restart. */
  lemma ConfirmedStaySent(steps: seq<Step>, h: Hlc)
    requires h in Run(START, steps).confirmed
    ensures h !in Unsent(Run(START, steps + [Disconnect, Handshake]))
  {
    RunRemembers(START, steps);
    RunTwo(START, steps, Disconnect, Handshake);
  }

  /** So the session after a restart offers exactly the writes no ack has covered. */
  lemma RestartOffersExactly(steps: seq<Step>)
    ensures var w := Run(START, steps);
            Unsent(Run(START, steps + [Disconnect, Handshake])) == w.own - w.confirmed
  {
    var w := Run(START, steps);
    RunKeepsSound(START, steps);
    RunRemembers(START, steps);
    RunTwo(START, steps, Disconnect, Handshake);
  }

  lemma RunTwo(w: World, steps: seq<Step>, one: Step, two: Step)
    ensures Run(w, steps + [one, two]) == Next(Next(Run(w, steps), one), two)
  {
    var all := steps + [one, two];
    assert all[..|all| - 1] == steps + [one] && (steps + [one])[..|steps|] == steps;
  }

  /** A write made now, later than every other, and the session that offers it with all that is unsent. */
  function Offered(w: World, h: Hlc): World {
    Next(Next(Next(w, LocalWrite(h)), Handshake), Push(h))
  }

  lemma OfferIsSent(w: World, h: Hlc)
    requires Sound(w) && !w.recovery.Transferring? && h > 0 && forall g :: g in w.own ==> g < h
    ensures var p := Offered(w, h);
            Sound(p) && p.own == w.own + {h} && w.nextId in p.pending && p.pending[w.nextId] == h
  {
    var written := Next(w, LocalWrite(h));
    SoundStep(w, LocalWrite(h));
    var shaken := Next(written, Handshake);
    SoundStep(written, Handshake);
    assert h in Unsent(shaken) && !Held(shaken);
    PushKeepsSound(shaken, h);
  }

  lemma PromotedToTheEnd(s: World, id: RequestId)
    requires Sound(s) && id in s.pending && id in s.served && forall g :: g in s.own ==> g <= s.pending[id]
    ensures Unsent(Promoted(s, id)) == {} && s.own <= Promoted(s, id).confirmed
    ensures Promoted(s, id).confirmed <= s.landed
  {
    PromoteKeepsSound(s, id);
    NothingLeftIsConfirmed(Promoted(s, id));
  }

  lemma AckOfAllConfirmsAll(s: World, id: RequestId, next: Hlc)
    requires Sound(s) && id in s.pending && id in s.served && forall g :: g in s.own ==> g <= s.pending[id]
    ensures var acked := Next(s, Ack(id, next));
            acked.own == s.own && acked.own <= acked.confirmed <= acked.landed && Unsent(acked) == {}
  {
    PromotedToTheEnd(s, id);
  }

  lemma RoundConfirmsAll(w: World, h: Hlc, next: Hlc)
    requires Sound(w) && !w.recovery.Transferring? && h > 0 && forall g :: g in w.own ==> g < h
    ensures var acked := Next(Next(Offered(w, h), ServerApply(w.nextId)), Ack(w.nextId, next));
            && acked.own == w.own + {h} && acked.own <= acked.confirmed && acked.own <= acked.landed
            && Unsent(acked) == {}
  {
    var offered := Offered(w, h);
    OfferIsSent(w, h);
    ApplyKeepsSound(offered, w.nextId);
    AckOfAllConfirmsAll(Next(offered, ServerApply(w.nextId)), w.nextId, next);
  }

  /** From any state a run reaches outside a snapshot, one session that offers everything, is served and acknowledged
      leaves every own write on the server and confirmed, and nothing to send. */
  lemma OneRoundConfirmsAll(steps: seq<Step>, h: Hlc, next: Hlc)
    requires var w := Run(START, steps);
             !w.recovery.Transferring? && h > 0 && forall g :: g in w.own ==> g < h
    ensures var w := Run(START, steps);
            var acked := Next(Next(Offered(w, h), ServerApply(w.nextId)), Ack(w.nextId, next));
            && acked.own == w.own + {h} && acked.own <= acked.confirmed && acked.own <= acked.landed
            && Unsent(acked) == {}
  {
    RunKeepsSound(START, steps);
    RoundConfirmsAll(Run(START, steps), h, next);
  }

  /** A refused pull, with nothing left to send and a session up, goes straight to the snapshot; with writes left it
      sends the next batch and waits for its ack; while a snapshot is being taken it changes nothing. */
  lemma RefusedPullStartsRecovery(w: World, next: Hlc)
    requires w.open && w.watching
    ensures var now := Next(w, SnapshotRequired(next));
            && (w.recovery.Transferring? ==> now == w)
            && (!w.recovery.Transferring? && (forall h :: h in w.own ==> h <= w.lastSent) ==>
                  now == w.(recovery := Transferring(w.own)))
            && (!w.recovery.Transferring? && next in w.own && next > w.lastSent ==>
                  && now.recovery == Awaiting(w.nextId) && now == Next(w, Push(next)).(recovery := now.recovery)
                  && w.nextId in now.pending && now.pending[w.nextId] == next)
  {
    if forall h :: h in w.own ==> h <= w.lastSent {
      assert Unsent(w) == {};
    } else {
      assert next in w.own && next > w.lastSent ==> next in Unsent(w);
    }
  }

  // ---- recovery ---------------------------------------------------------------------------------

  /** A snapshot is asked for only when every own write present at the drain's last read has been acknowledged,
      and never from a push that was held. */
  lemma SnapshotOnlyWhenDrained(w: World, step: Step)
    requires Sound(w) && !w.recovery.Transferring? && Next(w, step).recovery.Transferring?
    ensures var now := Next(w, step);
            && now.own == w.own == now.recovery.seen && now.own <= now.confirmed && Unsent(now) == {}
            && !Held(w) && (step.SnapshotRequired? || (step.Ack? && step.id in w.served))
  {
    if step.Ack? {
      PromoteKeepsSound(w, step.id);
      NothingLeftIsConfirmed(Promoted(w, step.id));
    } else {
      NothingLeftIsConfirmed(w);
    }
  }

  lemma NothingLeftIsConfirmed(w: World)
    requires Sound(w)
    ensures Unsent(w) == {} ==> w.own <= w.confirmed
  {
    if Unsent(w) == {} {
      forall h | h in w.own ensures h in w.confirmed {
        assert h !in Unsent(w);
      }
    }
  }

  /** A rejected push, a lost socket or the end of the session ends a recovery that waits. No snapshot is then taken
      in any run that follows, until the server refuses a pull again. */
  lemma {:induction false} FailureNeverSnapshots(w: World, failure: Step, steps: seq<Step>)
    requires failure.Close? || failure.Disconnect? || (failure.ServerError? && !w.recovery.Transferring?)
    requires forall i :: 0 <= i < |steps| ==> !steps[i].SnapshotRequired?
    ensures Run(Next(w, failure), steps).recovery == NoRecovery
  {
    if steps != [] {
      FailureNeverSnapshots(w, failure, steps[..|steps| - 1]);
    }
  }

  /** Each matched ack leaves fewer writes past the mark, so the drain ends once writing stops. */
  lemma AckShrinksBacklog(w: World, id: RequestId)
    requires Sound(w) && id in w.served && id in w.pending
    ensures |Unsent(Promoted(w, id))| < |Unsent(w)|
  {
    var now := Promoted(w, id);
    PromoteKeepsSound(w, id);
    assert Faithful(w, id);
    SmallerSet(Unsent(now), Unsent(w), w.pending[id]);
  }
}
