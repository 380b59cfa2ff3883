/** Savepoints over an overlay that is created lazily.

    The database keeps one savepoint depth for the whole transaction and tells every connection about
    each step. Depths taken while the table had no overlay are remembered in a set of their own, because
    the overlay created later has no snapshot of its own to go back to.
 */
module Savepoints {
  import opened Rows
  import opened MergedView

  /** The overlay's staged rows and its own stack of snapshots, one per open depth. */
  datatype Staging = Staging(rows: Overlay, stack: seq<Overlay>)

  /** `depth` is the number of open savepoints, `pre` the depths recorded as older than the overlay, and
      `taken` what was staged when each open savepoint was created. */
  datatype State = State(depth: nat, pre: set<nat>, staging: Option<Staging>, taken: seq<Overlay>)

  datatype Step =
    | Write(rows: Overlay)
    | Savepoint
    | Release(index: nat)
    | RollbackTo(index: nat)

  const START := State(0, {}, None, [])

  function Shown(s: State): Overlay {
    if s.staging.Some? then s.staging.value.rows else map[]
  }

  /** A new overlay joins the transaction by replaying the open depths, with nothing staged at any. */
  function Created(s: State): Staging {
    if s.staging.Some? then s.staging.value else Staging(map[], seq(s.depth, i => map[]))
  }

  /** The database names only open depths. */
  predicate Enabled(s: State, step: Step) {
    match step
    case Write(_) => true
    case Savepoint => true
    case Release(i) => i < s.depth
    case RollbackTo(i) => i < s.depth
  }

  function Cut(snapshots: seq<Overlay>, n: nat): seq<Overlay> {
    if n <= |snapshots| then snapshots[..n] else snapshots
  }

  /** The snapshot at depth `i`; a stack too short for it has nothing staged there. */
  function Snapshot(snapshots: seq<Overlay>, i: nat): Overlay {
    if i < |snapshots| then snapshots[i] else map[]
  }

  /** One step. A step that names a depth that is not open is refused. */
  function Next(s: State, step: Step): State {
    if !Enabled(s, step) then s
    else match step
      case Write(rows) => s.(staging := Some(Created(s).(rows := rows)))
      case Savepoint =>
        State(s.depth + 1, if s.staging.None? then s.pre + {s.depth} else s.pre, Pushed(s.staging),
            s.taken + [Shown(s)])
      case Release(i) => State(i, s.pre - {i}, Popped(s.staging, i), Cut(s.taken, i))
      case RollbackTo(i) =>
        if i in s.pre then State(i + 1, (set d | d in s.pre && d <= i), None, Cut(s.taken, i + 1))
        else State(i + 1, s.pre, Restored(s.staging, i), Cut(s.taken, i + 1))
  }

  function Pushed(staging: Option<Staging>): Option<Staging> {
    if staging.None? then None else Some(staging.value.(stack := staging.value.stack + [staging.value.rows]))
  }

  function Popped(staging: Option<Staging>, i: nat): Option<Staging> {
    if staging.None? then None else Some(staging.value.(stack := Cut(staging.value.stack, i)))
  }

  function Restored(staging: Option<Staging>, i: nat): Option<Staging> {
    if staging.None? then None else Some(Staging(Snapshot(staging.value.stack, i), Cut(staging.value.stack, i + 1)))
  }

  ghost predicate Sound(s: State) {
    && |s.taken| == s.depth
    && (s.staging.Some? ==> s.staging.value.stack == s.taken)
    && (s.staging.None? ==> forall d: nat :: d < s.depth ==> d in s.pre)
    && (forall d :: d in s.pre ==> d < s.depth && s.taken[d] == map[])
    && (forall d: nat, e: nat :: e in s.pre && d < e ==> d in s.pre)
  }

  /** Releasing depth `i` closes every depth above it too, but forgets only `i` itself. */
  predicate ClearsRecord(s: State, step: Step) {
    step.Release? ==> step.index + 1 !in s.pre
  }

  lemma WriteKeepsSound(s: State, rows: Overlay)
    requires Sound(s)
    ensures Sound(Next(s, Write(rows)))
  {
    if s.staging.None? {
      assert forall d: nat :: d < s.depth ==> s.taken[d] == map[];
      assert Created(s).stack == s.taken;
    }
  }

  lemma ReleaseKeepsSound(s: State, i: nat)
    requires Sound(s) && i < s.depth && i + 1 !in s.pre
    ensures Sound(Next(s, Release(i)))
  {
    assert forall d :: d in s.pre ==> d < i + 1 || i + 1 in s.pre;
    assert forall d: nat :: d < i ==> Next(s, Release(i)).taken[d] == s.taken[d];
  }

  lemma RollbackKeepsSound(s: State, i: nat)
    requires Sound(s) && i < s.depth
    ensures Sound(Next(s, RollbackTo(i)))
  {
    assert forall d: nat :: d < i + 1 ==> Next(s, RollbackTo(i)).taken[d] == s.taken[d];
    if i !in s.pre {
      assert forall d :: d in s.pre ==> d < i + 1;
    }
  }

  lemma SoundStep(s: State, step: Step)
    requires Sound(s) && ClearsRecord(s, step)
    ensures Sound(Next(s, step))
  {
    if Enabled(s, step) {
      match step
      case Write(rows) => WriteKeepsSound(s, rows);
      case Savepoint => assert forall d :: 0 <= d < s.depth ==> Next(s, step).taken[d] == s.taken[d];
      case Release(i) => ReleaseKeepsSound(s, i);
      case RollbackTo(i) => RollbackKeepsSound(s, i);
    }
  }

  /** Rolling back shows what was staged when that savepoint was taken. */
  lemma RollbackShowsTaken(s: State, i: nat)
    requires Sound(s) && i < s.depth
    ensures Shown(Next(s, RollbackTo(i))) == s.taken[i]
  {
  }

  // ---- whole runs -------------------------------------------------------------------------------

  /** Every release along the run clears its record. Nothing else is asked of the states on the way. */
  predicate Runs(s: State, steps: seq<Step>)
    decreases |steps|
  {
    steps != [] ==> ClearsRecord(s, steps[0]) && Runs(Next(s, steps[0]), steps[1..])
  }

  function After(s: State, steps: seq<Step>): State
    decreases |steps|
  {
    if steps == [] then s else After(Next(s, steps[0]), steps[1..])
  }

  /** A step that leaves depth `d` open: it releases nothing at or below it, and rolls back to nothing below. */
  predicate KeepsOpen(d: nat, step: Step) {
    (step.Release? ==> step.index > d) && (step.RollbackTo? ==> step.index >= d)
  }

  predicate LeavesOpen(d: nat, steps: seq<Step>) {
    forall i :: 0 <= i < |steps| ==> KeepsOpen(d, steps[i])
  }

  lemma {:induction false} RunKeepsSound(s: State, steps: seq<Step>)
    requires Sound(s) && Runs(s, steps)
    ensures Sound(After(s, steps))
    decreases |steps|
  {
    if steps != [] {
      SoundStep(s, steps[0]);
      RunKeepsSound(Next(s, steps[0]), steps[1..]);
    }
  }

  /** Every state reached from the start of a transaction is sound while each release clears its record. */
  lemma ReachedIsSound(steps: seq<Step>)
    requires Runs(START, steps)
    ensures Sound(After(START, steps))
  {
    RunKeepsSound(START, steps);
  }

  lemma {:induction false} TakenStays(s: State, d: nat, steps: seq<Step>)
    requires Sound(s) && Runs(s, steps) && d < s.depth && LeavesOpen(d, steps)
    ensures var t := After(s, steps); Sound(t) && d < t.depth && t.taken[d] == s.taken[d]
    decreases |steps|
  {
    if steps != [] {
      assert KeepsOpen(d, steps[0]);
      SoundStep(s, steps[0]);
      var t := Next(s, steps[0]);
      assert d < t.depth && t.taken[d] == s.taken[d];
      assert LeavesOpen(d, steps[1..]) by {
        forall i | 0 <= i < |steps[1..]| ensures KeepsOpen(d, steps[1..][i]) {
          assert steps[1..][i] == steps[i + 1];
        }
      }
      TakenStays(t, d, steps[1..]);
    }
  }

  /** Take a savepoint in any state a transaction reaches, run any steps that leave it open, roll back to it:
      the connection sees again exactly what it saw when the savepoint was taken, over any committed rows. */
  lemma RollbackRestores(before: seq<Step>, steps: seq<Step>, base: Table)
    requires Runs(START, before) && Runs(Next(After(START, before), Savepoint), steps)
    requires LeavesOpen(After(START, before).depth, steps)
    ensures var s := After(START, before);
            var t := After(Next(s, Savepoint), steps);
            && s.depth < t.depth && Sound(t)
            && Merged(base, Shown(Next(t, RollbackTo(s.depth)))) == Merged(base, Shown(s))
  {
    var s := After(START, before);
    ReachedIsSound(before);
    SoundStep(s, Savepoint);
    var inside := Next(s, Savepoint);
    assert inside.taken[s.depth] == Shown(s);
    TakenStays(inside, s.depth, steps);
    RollbackShowsTaken(After(inside, steps), s.depth);
  }

  // ---- the savepoint stack of one plain table ---------------------------------------------------

  /** One table that is copied at every savepoint: no overlay, no record of depths. */
  datatype Ideal = Ideal(rows: Overlay, saved: seq<Overlay>)

  function IdealNext(t: Ideal, step: Step): Ideal {
    match step
    case Write(rows) => t.(rows := rows)
    case Savepoint => t.(saved := t.saved + [t.rows])
    case Release(i) => if i < |t.saved| then t.(saved := t.saved[..i]) else t
    case RollbackTo(i) => if i < |t.saved| then Ideal(t.saved[i], t.saved[..i + 1]) else t
  }

  function IdealAfter(t: Ideal, steps: seq<Step>): Ideal
    decreases |steps|
  {
    if steps == [] then t else IdealAfter(IdealNext(t, steps[0]), steps[1..])
  }

  function AsIdeal(s: State): Ideal {
    Ideal(Shown(s), s.taken)
  }

  lemma StepIsIdeal(s: State, step: Step)
    requires Sound(s)
    ensures AsIdeal(Next(s, step)) == IdealNext(AsIdeal(s), step)
  {
    if step.RollbackTo? && step.index < s.depth {
      RollbackShowsTaken(s, step.index);
    }
  }

  /** Over every run whose releases clear their records, the lazily created overlay and its record of depths show at
      every point what a table copied at each savepoint would hold. */
  lemma {:induction false} RunIsIdeal(s: State, steps: seq<Step>)
    requires Sound(s) && Runs(s, steps)
    ensures AsIdeal(After(s, steps)) == IdealAfter(AsIdeal(s), steps)
    decreases |steps|
  {
    if steps != [] {
      SoundStep(s, steps[0]);
      StepIsIdeal(s, steps[0]);
      RunIsIdeal(Next(s, steps[0]), steps[1..]);
    }
  }

  /** In any state at all, sound or not, releasing an open depth changes nothing the connection sees. */
  lemma ReleaseShowsTheSame(s: State, i: nat)
    requires i < s.depth
    ensures Shown(Next(s, Release(i))) == Shown(s)
  {
  }

  /** After any run, taking and releasing savepoints leaves the connection seeing what its last write or rollback left,
      over any committed rows. */
  lemma {:induction false} OnlyWritesAndRollbacksShow(s: State, steps: seq<Step>, base: Table)
    requires forall i :: 0 <= i < |steps| ==> steps[i].Savepoint? || steps[i].Release?
    ensures Merged(base, Shown(After(s, steps))) == Merged(base, Shown(s))
    decreases |steps|
  {
    if steps != [] {
      if steps[0].Release? && steps[0].index < s.depth {
        ReleaseShowsTheSame(s, steps[0].index);
      }
      OnlyWritesAndRollbacksShow(Next(s, steps[0]), steps[1..], base);
    }
  }

  // ---- exactly when a release is safe -----------------------------------------------------------

  /** What the connection sees after releasing depth `i`, staging `rows`, taking two savepoints and rolling
      back to the second. */
  function SeenAfterRelease(s: State, i: nat, rows: Overlay): Overlay {
    var released := Next(s, Release(i));
    var inner := Next(Next(Next(released, Write(rows)), Savepoint), Savepoint);
    Shown(Next(inner, RollbackTo(i + 1)))
  }

  /** A release keeps later rollbacks right if and only if the next depth up is not on record: when it is,
      the stale record makes a later savepoint at that depth throw away everything staged. */
  lemma ReleaseIsSafeExactly(s: State, i: nat)
    requires Sound(s) && i < s.depth
    ensures (forall rows :: SeenAfterRelease(s, i, rows) == rows) <==> i + 1 !in s.pre
    ensures i + 1 !in s.pre <==> Sound(Next(s, Release(i)))
  {
    var released := Next(s, Release(i));
    if i + 1 in s.pre {
      var rows: Overlay := map[[] := Live([])];
      assert SeenAfterRelease(s, i, rows) == map[];
      assert [] in rows;
      assert i + 1 in released.pre;
    } else {
      SoundStep(s, Release(i));
      forall rows ensures SeenAfterRelease(s, i, rows) == rows {
        SafeReleaseShows(released, rows);
      }
    }
  }

  lemma SafeReleaseShows(r: State, rows: Overlay)
    requires Sound(r)
    ensures Shown(Next(Next(Next(Next(r, Write(rows)), Savepoint), Savepoint), RollbackTo(r.depth + 1))) == rows
  {
    var written := Next(r, Write(rows));
    SoundStep(r, Write(rows));
    var one := Next(written, Savepoint);
    SoundStep(written, Savepoint);
    SoundStep(one, Savepoint);
    RollbackShowsTaken(Next(one, Savepoint), r.depth + 1);
  }

  /** The shortest such run: two savepoints before any write, the outer one released. */
  lemma OuterReleaseLosesWrites()
    ensures var s := After(START, [Savepoint, Savepoint]);
            && Sound(s) && !Sound(Next(s, Release(0)))
            && SeenAfterRelease(s, 0, map[[Num(1)] := Live([Num(1)])]) == map[]
  {
    var one := Next(START, Savepoint);
    assert [Savepoint, Savepoint][1..] == [Savepoint] && [Savepoint][1..] == [];
    assert After(START, [Savepoint, Savepoint]) == After(one, [Savepoint]) == Next(one, Savepoint);
    ReachedIsSound([Savepoint, Savepoint]);
    ReleaseIsSafeExactly(Next(one, Savepoint), 0);
  }

  // ---- the callbacks ----------------------------------------------------------------------------

  /** One connection's transaction on one table, driven by the database's savepoint calls. */
  class TableConnection {
    var depth: nat
    var savepointsBeforeOverlay: set<nat>
    var overlay: Option<Staging>
    var taken: seq<Overlay>

    function Now(): State
      reads this
    {
      State(depth, savepointsBeforeOverlay, overlay, taken)
    }

    ghost predicate Valid()
      reads this
    {
      |taken| == depth && (overlay.Some? ==> |overlay.value.stack| == depth)
    }

    constructor ()
      ensures Now() == START && Valid()
    {
      depth, savepointsBeforeOverlay, overlay, taken := 0, {}, None, [];
    }

    method EnsureOverlay()
      requires Valid()
      modifies this`overlay
      ensures Valid() && overlay == Some(Created(old(Now())))
    {
      if overlay.None? {
        var stack: seq<Overlay> := [];
        for i := 0 to depth
          invariant stack == seq(i, j => map[])
        {
          stack := stack + [map[]];
        }
        overlay := Some(Staging(map[], stack));
      }
    }

    method StageRows(rows: Overlay)
      requires Valid()
      modifies this`overlay
      ensures Valid() && Now() == Next(old(Now()), Write(rows))
    {
      EnsureOverlay();
      overlay := Some(overlay.value.(rows := rows));
    }

    method OnSavepoint()
      requires Valid()
      modifies this
      ensures Valid() && Now() == Next(old(Now()), Savepoint)
    {
      taken := taken + [Shown(Now())];
      if overlay.None? {
        savepointsBeforeOverlay := savepointsBeforeOverlay + {depth};
      } else {
        overlay := Some(overlay.value.(stack := overlay.value.stack + [overlay.value.rows]));
      }
      depth := depth + 1;
    }

    method OnReleaseSavepoint(index: nat)
      requires Valid() && index < depth
      modifies this
      ensures Valid() && Now() == Next(old(Now()), Release(index))
      ensures Shown(Now()) == old(Shown(Now()))
    {
      savepointsBeforeOverlay := savepointsBeforeOverlay - {index};
      if overlay.Some? {
        overlay := Some(overlay.value.(stack := overlay.value.stack[..index]));
      }
      depth, taken := index, taken[..index];
    }

    method OnRollbackToSavepoint(index: nat)
      requires Valid() && index < depth
      modifies this
      ensures Valid() && Now() == Next(old(Now()), RollbackTo(index))
    {
      if index in savepointsBeforeOverlay {
        overlay := None;
        var left := savepointsBeforeOverlay;
        while left != {}
          invariant left <= old(savepointsBeforeOverlay)
          invariant savepointsBeforeOverlay == set d | d in old(savepointsBeforeOverlay) && (d <= index || d in left)
          modifies this`savepointsBeforeOverlay
          decreases |left|
        {
          var d :| d in left;
          if d > index {
            savepointsBeforeOverlay := savepointsBeforeOverlay - {d};
          }
          left := left - {d};
        }
      } else if overlay.Some? {
        overlay := Some(Staging(overlay.value.stack[index], overlay.value.stack[..index + 1]));
      }
      depth, taken := index + 1, taken[..index + 1];
    }

    /** One call of the database; one that names a depth that is not open is refused. */
    method Perform(step: Step)
      requires Valid()
      modifies this
      ensures Valid() && Now() == Next(old(Now()), step)
    {
      match step
      case Write(rows) => StageRows(rows);
      case Savepoint => OnSavepoint();
      case Release(i) =>
        if i < depth {
          OnReleaseSavepoint(i);
        }
      case RollbackTo(i) =>
        if i < depth {
          OnRollbackToSavepoint(i);
        }
    }

    /** A transaction's calls in order. While each release clears its record the connection stays sound. */
    method PerformAll(steps: seq<Step>)
      requires Valid() && Sound(Now()) && Runs(Now(), steps)
      modifies this
      ensures Valid() && Now() == After(old(Now()), steps) && Sound(Now())
      ensures AsIdeal(Now()) == IdealAfter(old(AsIdeal(Now())), steps)
    {
      RunIsIdeal(Now(), steps);
      assert steps[0..] == steps;
      for i := 0 to |steps|
        invariant Valid() && Sound(Now()) && Runs(Now(), steps[i..])
        invariant After(Now(), steps[i..]) == After(old(Now()), steps)
      {
        assert steps[i..][0] == steps[i] && steps[i..][1..] == steps[i + 1..];
        SoundStep(Now(), steps[i]);
        Perform(steps[i]);
      }
      assert steps[|steps|..] == [];
    }
  }
}
