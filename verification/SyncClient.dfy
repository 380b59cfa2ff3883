/** The push side's code: the client's fields and the calls that change them. */
module SyncClient {
  import opened SyncPush

  datatype PushOutcome = Sent(id: RequestId) | NothingLeft | NotPushed

  /** What comes back for a push that is waited on: its ack, or a close, an error, a replaced socket. */
  datatype Answer = Acked | Failed

  ghost predicate Ascending(s: seq<Hlc>) {
    forall i, j :: 0 <= i < j < |s| ==> s[i] < s[j]
  }

  function Members(s: seq<Hlc>): set<Hlc> {
    set h | h in s
  }

  /** What a read has gathered from the first `i` entries: those past `since`, the greatest last. */
  ghost predicate Gathered(log: seq<Hlc>, i: nat, since: Hlc, batch: seq<Hlc>)
    requires i <= |log|
  {
    && (forall h :: h in batch <==> h in log[..i] && since < h)
    && (batch != [] ==> forall h :: h in batch ==> h <= batch[|batch| - 1])
  }

  lemma PrefixGrows(log: seq<Hlc>, i: nat)
    requires i < |log|
    ensures forall h :: h in log[..i + 1] <==> h in log[..i] || h == log[i]
  {
    assert log[..i + 1] == log[..i] + [log[i]];
  }

  lemma GatherOne(log: seq<Hlc>, i: nat, since: Hlc, batch: seq<Hlc>)
    requires Ascending(log) && i < |log| && Gathered(log, i, since, batch)
    ensures Gathered(log, i + 1, since, if log[i] > since then batch + [log[i]] else batch)
  {
    PrefixGrows(log, i);
    if log[i] > since {
      var more := batch + [log[i]];
      assert forall h :: h in more <==> h in batch || h == log[i];
      assert more[|more| - 1] == log[i];
    }
  }

  /** What a read of the whole log owes its caller. */
  ghost predicate ReadFrom(log: seq<Hlc>, since: Hlc, batch: seq<Hlc>) {
    && (batch == [] <==> forall h :: h in log ==> h <= since)
    && (batch != [] ==> batch[|batch| - 1] in batch)
    && (batch != [] ==> forall h :: h in batch <==> h in log && since < h <= batch[|batch| - 1])
  }

  /** A read may stop after any entry it took, or at the end. */
  lemma GatheredEnough(log: seq<Hlc>, i: nat, since: Hlc, batch: seq<Hlc>)
    requires Ascending(log) && i <= |log| && Gathered(log, i, since, batch)
    requires i == |log| || (i > 0 && batch != [] && batch[|batch| - 1] == log[i - 1])
    ensures ReadFrom(log, since, batch)
  {
    assert batch != [] ==> batch[|batch| - 1] in batch;
    assert log == log[..i] + log[i..];
    assert forall h :: h in log <==> h in log[..i] || h in log[i..];
    assert i > 0 ==> forall h :: h in log[i..] ==> h > log[i - 1];
  }

  /** The change store's read: this device's own writes past `since`, oldest first, at most `limit`. */
  method GetChangesToPush(log: seq<Hlc>, since: Hlc, limit: nat) returns (batch: seq<Hlc>)
    requires Ascending(log) && limit > 0
    ensures |batch| <= limit && (batch == [] <==> forall h :: h in log ==> h <= since)
    ensures batch != [] ==> forall h :: h in batch <==> h in log && since < h <= batch[|batch| - 1]
    ensures batch != [] ==> batch[|batch| - 1] in batch
  {
    batch := [];
    for i := 0 to |log|
      invariant |batch| < limit && Gathered(log, i, since, batch)
    {
      GatherOne(log, i, since, batch);
      if log[i] > since {
        batch := batch + [log[i]];
        if |batch| == limit {
          GatheredEnough(log, i + 1, since, batch);
          return;
        }
      }
    }
    GatheredEnough(log, |log|, since, batch);
  }

  method MaxHlc(batch: seq<Hlc>) returns (max: Hlc)
    requires batch != []
    ensures max in batch && forall h :: h in batch ==> h <= max
  {
    max := batch[0];
    for i := 1 to |batch|
      invariant max in batch && forall h :: h in batch[..i] ==> h <= max
    {
      assert batch[..i + 1] == batch[..i] + [batch[i]];
      if batch[i] > max {
        max := batch[i];
      }
    }
    assert batch[..|batch|] == batch;
  }

  class Client {
    var log: seq<Hlc>
    var lastSent: Hlc
    var persisted: Hlc
    var pending: map<RequestId, Hlc>
    var nextId: RequestId
    var watching: bool
    var open: bool
    var recovery: Recovery
    ghost var sent: map<RequestId, Batch>
    ghost var served: set<RequestId>
    ghost var landed: set<Hlc>
    ghost var confirmed: set<Hlc>

    ghost function Now(): World
      reads this
    {
      World(Members(log), lastSent, persisted, pending, nextId, watching, open, recovery, sent, served, landed,
          confirmed)
    }

    ghost predicate Valid()
      reads this
    {
      Ascending(log) && Sound(Now())
    }

    constructor ()
      ensures Valid() && Now() == START
    {
      log, lastSent, persisted, pending, nextId := [], 0, 0, map[], 0;
      watching, open, recovery := false, false, NoRecovery;
      sent, served, landed, confirmed := map[], {}, {}, {};
    }

    /** Sends the next batch past the mark and records the mark its ack will bring. A batch that did not leave
        the socket leaves no trace. */
    method PushLocalChanges(limit: nat, leaves: bool) returns (outcome: PushOutcome)
      requires Valid() && limit > 0
      modifies this`pending, this`nextId, this`sent
      ensures Valid()
      ensures outcome.Sent? ==>
              exists upTo :: Readable(old(Now()), upTo) && !Held(old(Now())) && Now() == Pushed(old(Now()), upTo)
      ensures outcome.Sent? ==> outcome.id == old(nextId) && outcome.id in pending
      ensures !outcome.Sent? ==> Now() == old(Now())
      ensures outcome.NothingLeft? <==> !Held(old(Now())) && Unsent(old(Now())) == {}
      ensures outcome.NotPushed? <==> Held(old(Now())) || (Unsent(old(Now())) != {} && !leaves)
    {
      if !open || !watching || recovery.Transferring? {
        return NotPushed;
      }
      var batch, upTo := ReadBatch(limit);
      if batch == [] {
        return NothingLeft;
      }
      if !leaves {
        return NotPushed;
      }
      PushKeepsSound(Now(), upTo);
      outcome := SendBatch(batch, upTo);
    }

    /** The next batch past the mark, with the mark its ack will bring. */
    method ReadBatch(limit: nat) returns (batch: seq<Hlc>, upTo: Hlc)
      requires Ascending(log) && limit > 0
      ensures batch == [] <==> Unsent(Now()) == {}
      ensures batch != [] ==> upTo in Unsent(Now()) && Members(batch) == Window(Members(log), lastSent, upTo)
    {
      batch := GetChangesToPush(log, lastSent, limit);
      upTo := 0;
      if batch != [] {
        upTo := MaxHlc(batch);
        assert upTo == batch[|batch| - 1];
        assert upTo in Unsent(Now());
      }
    }

    method SendBatch(batch: seq<Hlc>, upTo: Hlc) returns (outcome: PushOutcome)
      requires Members(batch) == Window(Members(log), lastSent, upTo)
      modifies this`pending, this`nextId, this`sent
      ensures outcome == Sent(old(nextId)) && Now() == Pushed(old(Now()), upTo)
    {
      outcome := Sent(nextId);
      sent := sent[nextId := Batch(lastSent, upTo, Members(batch))];
      pending := pending[nextId := upTo];
      nextId := nextId + 1;
    }

    /** One ack. An id that is not pending is ignored; a pending one raises the mark, persists it and drops
        every push the mark covers. */
    method PromoteWatermark(id: RequestId) returns (advanced: bool)
      requires Valid() && id in served
      modifies this`pending, this`lastSent, this`persisted, this`confirmed
      ensures Valid() && (advanced <==> id in old(pending))
      ensures Now() == if id in old(pending) then Promoted(old(Now()), id) else old(Now())
    {
      if id !in pending {
        return false;
      }
      PromoteKeepsSound(Now(), id);
      advanced := RaiseMark(id);
    }

    method RaiseMark(id: RequestId) returns (advanced: bool)
      requires id in pending && id in sent
      modifies this`pending, this`lastSent, this`persisted, this`confirmed
      ensures Now() == Promoted(old(Now()), id) && (advanced <==> old(pending)[id] > old(lastSent))
    {
      ghost var was := Now();
      var promoted := pending[id];
      pending := pending - {id};
      confirmed := confirmed + sent[id].writes;
      advanced := promoted > lastSent;
      if advanced {
        lastSent := promoted;
        persisted := lastSent;
      }
      PruneCovered();
      assert Now() == Promoted(was, id);
    }

    method PruneCovered()
      modifies this`pending
      ensures pending == Above(old(pending), lastSent)
    {
      ghost var was := pending;
      var left := pending.Keys;
      while left != {}
        invariant left <= was.Keys
        invariant pending == map i | i in was && (i in left || was[i] > lastSent) :: was[i]
        modifies this`pending
        decreases |left|
      {
        var i :| i in left;
        left := left - {i};
        if pending[i] <= lastSent {
          pending := pending - {i};
        }
      }
    }

    /** Takes the persisted mark only when it is ahead of the one in memory. */
    method SeedSentWatermark()
      requires Valid()
      modifies this`lastSent, this`watching, this`open
      ensures Valid() && Now() == Next(old(Now()), Handshake)
    {
      ghost var was := Now();
      if persisted != 0 && (lastSent == 0 || persisted > lastSent) {
        lastSent := persisted;
      }
      open, watching := true, true;
      assert Now() == Next(was, Handshake);
      SoundStep(was, Handshake);
    }

    method Disconnect()
      requires Valid()
      modifies this`lastSent, this`pending, this`watching, this`open, this`recovery
      ensures Valid() && Now() == Next(old(Now()), SyncPush.Disconnect)
    {
      ghost var was := Now();
      open, watching, lastSent, pending, recovery := false, false, 0, map[], NoRecovery;
      SoundStep(was, SyncPush.Disconnect);
    }

    /** The server applies a push and answers it. */
    ghost method ServerApplies(id: RequestId)
      requires Valid() && id in sent
      modifies this`landed, this`served
      ensures Valid() && Now() == Next(old(Now()), ServerApply(id)) && id in served
    {
      ghost var was := Now();
      ApplyKeepsSound(was, id);
      landed, served := landed + sent[id].writes, served + {id};
      assert Now() == Next(was, ServerApply(id));
    }

    /** Sends batch after batch, each waiting for its ack, until a read past the mark finds nothing. True only
        when every own write has been acknowledged. */
    method PushUntilDrained(limit: nat, leaves: bool, answers: nat -> Answer) returns (drained: bool)
      requires Valid() && limit > 0
      modifies this`pending, this`nextId, this`sent, this`lastSent, this`persisted, this`confirmed, this`landed,
          this`served
      ensures Valid() && persisted >= old(persisted)
      ensures drained ==> Now().own <= confirmed && Unsent(Now()) == {}
      ensures drained ==> !Held(old(Now()))
      ensures leaves && !Held(old(Now())) && (forall i :: answers(i).Acked?) ==> drained
    {
      var turn := 0;
      var push := PushLocalChanges(limit, leaves);
      while push.Sent?
        invariant Valid() && persisted >= old(persisted) && Held(Now()) == Held(old(Now()))
        invariant push.Sent? ==> push.id in pending && !Held(Now()) && leaves
        invariant push.NothingLeft? ==> Unsent(Now()) == {} && !Held(Now())
        invariant push.NotPushed? ==> Held(Now()) || !leaves
        decreases |Unsent(Now())|, if push.Sent? then 1 else 0
      {
        if answers(turn).Failed? {
          return false;
        }
        ServerApplies(push.id);
        AckShrinksBacklog(Now(), push.id);
        PersistedNeverFalls(Now(), Ack(push.id, 0));
        var advanced := PromoteWatermark(push.id);
        push := PushLocalChanges(limit, leaves);
        turn := turn + 1;
      }
      NothingLeftIsConfirmed(Now());
      drained := push.NothingLeft?;
    }

    /** The server refused an incremental pull. A full copy is taken only over work the server already holds;
        one already landing makes the refusal moot. */
    method HandleSnapshotRequired(limit: nat, leaves: bool, answers: nat -> Answer) returns (asked: bool)
      requires Valid() && limit > 0
      modifies this
      ensures Valid() && persisted >= old(persisted)
      ensures asked ==> !Held(old(Now())) && recovery == Transferring(Now().own) && Now().own <= confirmed
      ensures !asked ==> recovery == old(recovery)
      ensures old(recovery).Transferring? ==> !asked && Now() == old(Now())
    {
      if recovery.Transferring? {
        return false;
      }
      asked := PushUntilDrained(limit, leaves, answers);
      if asked {
        SoundWithRecovery(Now(), Transferring(Now().own));
        recovery := Transferring(set h | h in log);
      }
    }
  }
}
