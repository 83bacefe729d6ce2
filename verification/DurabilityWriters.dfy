/** Writers over the durable store: a group that is committed is one batch of the log, and what a
    writer was told succeeded is never lost. */
module DurabilityWriters {
  import opened Format
  import opened Database
  import opened Durability
  import opened DurabilityRuns
  import Group = GroupCommit

  datatype Store = Store(writers: Group.Writers, system: System)

  datatype StoreEvent = OfWriter(step: Group.Event) | OfStore(event: Event)

  /** No writer is left after a restart. */
  function Reopened(lastSequence: nat): Group.Writers {
    Group.EMPTY.(lastSequence := lastSequence)
  }

  /** A step of a writer that logs or applies does not fail. */
  predicate Succeeds(step: Group.Event) {
    match step
    case Logged(_, ok) => ok
    case Applied(_, ok) => ok
    case _ => true
  }

  /** What a step does to the durable store. */
  ghost function Effect(st: Store, ev: StoreEvent, byteSize: seq<Op> -> nat): Option<Event>
    requires ev.OfWriter? ==> Group.Can(st.writers, ev.step, byteSize)
  {
    match ev
    case OfStore(e) => Some(e)
    case OfWriter(step) =>
      match step
      case Logged(t, _) => Some(LogWrite(Group.GroupOps(st.writers, t, st.writers.pcs[t].group)))
      case Applied(_, _) => Some(ApplyWrite)
      case _ => None
  }

  ghost predicate Steps(st: Store, ev: StoreEvent, st': Store, byteSize: seq<Op> -> nat, o: Options) {
    && (match ev
        case OfStore(e) =>
          && !e.LogWrite? && !e.ApplyWrite?
          && st'.writers == if e.Restart? then Reopened(st'.system.db.lastSequence) else st.writers
        case OfWriter(step) =>
          && Group.Can(st.writers, step, byteSize) && Succeeds(step)
          && st'.writers == Group.Next(st.writers, step, byteSize))
    && match Effect(st, ev, byteSize)
       case None => st'.system == st.system
       case Some(e) => Can(st.system, e, o) && st'.system == Next(st.system, e, o)
  }

  // ---------- The two halves agree ----------

  /** The operations of the group that is logged and not applied. */
  function InWork(w: Group.Writers): Option<seq<Op>> {
    if w.head < |w.pcs| && w.pcs[w.head].Applying? && w.head + w.pcs[w.head].group <= |w.requests|
    then Some(Group.GroupOps(w, w.head, w.pcs[w.head].group)) else None
  }

  ghost predicate Coupled(st: Store, o: Options) {
    && Group.Inv(st.writers) && Consistent(st.system, o)
    && st.writers.lastSequence == st.system.db.lastSequence && st.system.inFlight == InWork(st.writers)
  }

  lemma {:induction false} StoreStepKeeps(sys: System, e: Event, o: Options)
    requires Can(sys, e, o) && !e.LogWrite? && !e.ApplyWrite? && !e.Restart? && Consistent(sys, o)
    ensures Next(sys, e, o).inFlight == sys.inFlight && Next(sys, e, o).db.lastSequence == sys.db.lastSequence
  {
    hide Inv, LogsOk, RecordsBounded, NumbersOk, TablesOk, ManifestOk, LastOf, Unsaved, WithTables, NewTables, Recorded;
    if e.Install? {
      assert sys.task.action.CompactMemTable? || sys.task.action.Compact? || sys.task.action.TrivialMove?;
    }
    hide Enabled;
  }

  lemma {:induction false} WriterStepKeeps(w: Group.Writers, step: Group.Event, byteSize: seq<Op> -> nat)
    requires Group.Inv(w) && Group.Can(w, step, byteSize) && !step.Logged? && !step.Applied?
    ensures var w' := Group.Next(w, step, byteSize);
            w'.lastSequence == w.lastSequence && w'.applied == w.applied && InWork(w') == InWork(w)
  {
    hide Group.AppliedOk, Group.LogOk, Group.IsGroup, Group.OpsOf;
    var w' := Group.Next(w, step, byteSize);
    if step.Arrive? {
      if InWork(w).Some? {
        var end := w.head + w.pcs[w.head].group;
        assert w'.requests[w.head..end] == w.requests[w.head..end];
      }
    } else if step.RoomFails? || (step.RoomMade? && w.requests[step.t].batch.None?) {
      Group.CompleteKeepsQueue(w, 1, if step.RoomFails? then Group.Failure else Group.Success);
      assert InWork(w') == None;
    }
  }

  /** A group is logged as one batch, with the sequence number it was given. */
  lemma {:induction false} LoggedIsLogWrite(w: Group.Writers, t: nat, byteSize: seq<Op> -> nat)
    requires Group.Inv(w) && Group.Can(w, Group.Logged(t, true), byteSize)
    ensures var w', ops := Group.Next(w, Group.Logged(t, true), byteSize), Group.GroupOps(w, t, w.pcs[t].group);
            && w'.lastSequence == w.lastSequence && w'.applied == w.applied && InWork(w) == None
                && InWork(w') == Some(ops)
            && w'.log != [] && w'.log[|w'.log| - 1].first == w.lastSequence + 1 && w'.log[|w'.log| - 1].ops == ops
  {
    hide Group.AppliedOk, Group.LogOk, Group.IsGroup, Group.OpsOf;
  }

  /** It is applied as that batch. */
  lemma {:induction false} AppliedIsApplyWrite(w: Group.Writers, t: nat, byteSize: seq<Op> -> nat)
    requires Group.Inv(w) && Group.Can(w, Group.Applied(t, true), byteSize)
    ensures var w' := Group.Next(w, Group.Applied(t, true), byteSize);
            && InWork(w).Some? && w'.lastSequence == w.lastSequence + |InWork(w).value| && InWork(w') == None
            && |w'.applied| == |w.applied| + 1 && w'.applied[..|w.applied|] == w.applied
            && w'.applied[|w.applied|].first == w.lastSequence + 1 && w'.applied[|w.applied|].ops == InWork(w).value
  {
    hide Group.AppliedOk, Group.IsGroup, Group.OpsOf, Group.InSequence, Group.Settles;
    var n, ops := |w.log| - 1, Group.GroupOps(w, t, w.pcs[t].group);
    var synced := w.log[n].(synced := w.requests[t].sync);
    var advanced :=
      w.(lastSequence := w.lastSequence + |ops|, log := w.log[n := synced], applied := w.applied + [synced]);
    assert forall u | 0 <= u < |w.pcs| :: Group.Result(advanced, u) == Group.Result(w, u);
    Group.CompleteKeepsQueue(advanced, w.pcs[t].group, Group.Success);
  }

  lemma {:induction false} WritesApart(sys: System, o: Options)
    ensures forall ops | Can(sys, LogWrite(ops), o) ::
        var sys' := Next(sys, LogWrite(ops), o); sys'.inFlight == Some(ops) && sys'.db == sys.db
    ensures Can(sys, ApplyWrite, o) ==>
        var sys' := Next(sys, ApplyWrite, o);
        sys'.inFlight == None && sys'.db.lastSequence == sys.db.lastSequence + |sys.inFlight.value|
  {
  }

  lemma {:induction false} NoWriters(lastSequence: nat)
    ensures Group.Inv(Reopened(lastSequence)) && InWork(Reopened(lastSequence)) == None
  {
  }

  /** Every step of either half keeps them in agreement. */
  lemma {:induction false} StepKeepsCoupled(st: Store, ev: StoreEvent, st': Store, byteSize: seq<Op> -> nat, o: Options)
    requires Coupled(st, o) && Steps(st, ev, st', byteSize, o)
    ensures Coupled(st', o)
  {
    hide Group.Inv, Group.Can, Group.Next, Consistent, Can, Next, InWork;
    WritesApart(st.system, o);
    match ev
    case OfStore(e) =>
      StepKeepsConsistent(st.system, e, o);
      if e.Restart? {
        NoWriters(st'.system.db.lastSequence);
        RestartForgets(st.system, e, o);
      } else {
        StoreStepKeeps(st.system, e, o);
      }
    case OfWriter(step) =>
      Group.StepKeepsInv(st.writers, step, byteSize);
      match step
      case Logged(t, _) =>
        LoggedIsLogWrite(st.writers, t, byteSize);
        StepKeepsConsistent(st.system, Effect(st, ev, byteSize).value, o);
      case Applied(t, _) =>
        AppliedIsApplyWrite(st.writers, t, byteSize);
        StepKeepsConsistent(st.system, ApplyWrite, o);
      case _ => WriterStepKeeps(st.writers, step, byteSize);
  }

  lemma {:induction false} RestartForgets(sys: System, e: Event, o: Options)
    requires e.Restart? && Can(sys, e, o)
    ensures Next(sys, e, o).inFlight == None
  {
    hide LogsToReplay, Contents, CanBeLeft, WithLeftovers, WithRecovered, RecoveredTables, WithTables, LastOf;
  }

  /** The durable store never holds a writer up, but for the last sequence numbers. */
  lemma {:induction false} WriterMayGoOn(st: Store, step: Group.Event, byteSize: seq<Op> -> nat, o: Options)
    requires Coupled(st, o) && Group.Can(st.writers, step, byteSize) && Succeeds(step)
    ensures match Effect(st, OfWriter(step), byteSize)
            case None => true
            case Some(e) => Can(st.system, e, o) <==>
                (step.Logged? ==> st.system.db.lastSequence + |e.ops| < MAX_SEQUENCE)
  {
    hide Group.Inv, Group.IsGroup, Inv, RecordsBounded, NumbersOk, TablesOk, TaskOk, ManifestOk, LastOf, Unsaved,
        Group.GroupOps, InWork;
    match step
    case Logged(t, _) => LoggedIsLogWrite(st.writers, t, byteSize);
    case Applied(t, _) => AppliedIsApplyWrite(st.writers, t, byteSize);
    case _ =>
  }

  // ---------- Whole runs ----------

  ghost predicate IsStoreRun(stores: seq<Store>, events: seq<StoreEvent>, byteSize: seq<Op> -> nat, o: Options) {
    && |stores| == |events| + 1 && stores[0] == Store(Group.EMPTY, START)
    && forall i | 0 <= i < |events| :: Steps(stores[i], events[i], stores[i + 1], byteSize, o)
  }

  lemma {:induction false} StoreRunCoupled(stores: seq<Store>, events: seq<StoreEvent>, byteSize: seq<Op> -> nat,
      o: Options, i: nat)
    requires IsStoreRun(stores, events, byteSize, o) && i < |stores|
    ensures Coupled(stores[i], o)
  {
    hide Group.Inv, Consistent, Steps;
    if i == 0 {
      NoWriters(0);
      StartIsConsistent(o);
    } else {
      StoreRunCoupled(stores, events, byteSize, o, i - 1);
      StepKeepsCoupled(stores[i - 1], events[i - 1], stores[i], byteSize, o);
    }
  }

  /** What happens to the durable store in a run. */
  ghost function Effects(stores: seq<Store>, events: seq<StoreEvent>, byteSize: seq<Op> -> nat, o: Options, i: nat)
      : (seq<System>, seq<Event>)
    requires IsStoreRun(stores, events, byteSize, o) && i < |stores|
  {
    if i == 0 then ([START], [])
    else
      var (systems, effects) := Effects(stores, events, byteSize, o, i - 1);
      assert Steps(stores[i - 1], events[i - 1], stores[i], byteSize, o);
      match Effect(stores[i - 1], events[i - 1], byteSize)
      case None => (systems, effects)
      case Some(e) => (systems + [stores[i].system], effects + [e])
  }

  /** A run with writers is a run of the durable store. */
  lemma {:induction false} EffectsAreRun(stores: seq<Store>, events: seq<StoreEvent>, byteSize: seq<Op> -> nat,
      o: Options, i: nat)
    requires IsStoreRun(stores, events, byteSize, o) && i < |stores|
    ensures var (systems, effects) := Effects(stores, events, byteSize, o, i);
            IsDurableRun(systems, effects, o) && systems[|effects|] == stores[i].system
  {
    hide Group.Can, Group.Next, Can, Next;
    if i > 0 {
      EffectsAreRun(stores, events, byteSize, o, i - 1);
      assert Steps(stores[i - 1], events[i - 1], stores[i], byteSize, o);
    }
  }

  lemma {:induction false} AcknowledgedPrefix(systems: seq<System>, events: seq<Event>, next: System, e: Event,
      o: Options, i: nat)
    requires IsDurableRun(systems, events, o) && IsDurableRun(systems + [next], events + [e], o) && i <= |events|
    ensures Acknowledged(systems + [next], events + [e], o, i) == Acknowledged(systems, events, o, i)
  {
    hide Can, Next, Batch;
    if i > 0 {
      AcknowledgedPrefix(systems, events, next, e, o, i - 1);
    }
  }

  /** The entries of every write acknowledged so far. */
  ghost function AllAcknowledged(stores: seq<Store>, events: seq<StoreEvent>, byteSize: seq<Op> -> nat, o: Options,
      i: nat): set<Entry>
    requires IsStoreRun(stores, events, byteSize, o) && i < |stores|
  {
    EffectsAreRun(stores, events, byteSize, o, i);
    var (systems, effects) := Effects(stores, events, byteSize, o, i);
    Acknowledged(systems, effects, o, |effects|)
  }

  /** Only applying a group acknowledges anything, and a restart that finds one in the log. */
  lemma {:induction false} StepAcknowledges(stores: seq<Store>, events: seq<StoreEvent>, byteSize: seq<Op> -> nat,
      o: Options, i: nat)
    requires IsStoreRun(stores, events, byteSize, o) && i < |events|
    ensures var st, ev := stores[i], events[i];
            AllAcknowledged(stores, events, byteSize, o, i + 1)
            == AllAcknowledged(stores, events, byteSize, o, i)
               + if (ev.OfWriter? && ev.step.Applied?) || (ev.OfStore? && ev.event.Restart?)
                 then Batch(st.system.db, st.system.inFlight) else {}
  {
    hide Group.Can, Group.Next, Can, Next, Batch, IsDurableRun;
    assert Steps(stores[i], events[i], stores[i + 1], byteSize, o);
    var (systems, effects) := Effects(stores, events, byteSize, o, i);
    EffectsAreRun(stores, events, byteSize, o, i);
    EffectsAreRun(stores, events, byteSize, o, i + 1);
    match Effect(stores[i], events[i], byteSize)
    case None =>
    case Some(e) =>
      DurableLength(systems, effects, o);
      AcknowledgedPrefix(systems, effects, stores[i + 1].system, e, o, |effects|);
  }

  /** What has been applied since the last restart is acknowledged. */
  ghost predicate AppliedIn(w: Group.Writers, history: set<Entry>) {
    forall k | 0 <= k < |w.applied| ::
      w.applied[k].first + |w.applied[k].ops| <= MAX_SEQUENCE + 1
      && BatchSet(w.applied[k].ops, w.applied[k].first) <= history
  }

  lemma {:induction false} AppliedAcknowledged(stores: seq<Store>, events: seq<StoreEvent>, byteSize: seq<Op> -> nat,
      o: Options, i: nat)
    requires IsStoreRun(stores, events, byteSize, o) && i < |stores|
    ensures AppliedIn(stores[i].writers, AllAcknowledged(stores, events, byteSize, o, i))
  {
    hide Group.Can, Group.Next, Can, Next, Batch, BatchSet, AllAcknowledged, Group.Inv, Consistent, InWork;
    if i > 0 {
      AppliedAcknowledged(stores, events, byteSize, o, i - 1);
      StoreRunCoupled(stores, events, byteSize, o, i - 1);
      StepAcknowledges(stores, events, byteSize, o, i - 1);
      var st, ev, w' := stores[i - 1], events[i - 1], stores[i].writers;
      assert Steps(st, ev, stores[i], byteSize, o);
      match ev
      case OfStore(e) =>
      case OfWriter(step) =>
        match step
        case Logged(t, _) => LoggedIsLogWrite(st.writers, t, byteSize);
        case Applied(t, _) =>
          AppliedIsApplyWrite(st.writers, t, byteSize);
          ApplyIsWrite(st.system, o);
          forall k | 0 <= k < |w'.applied|
            ensures w'.applied[k].first + |w'.applied[k].ops| <= MAX_SEQUENCE + 1
                && BatchSet(w'.applied[k].ops, w'.applied[k].first) <= AllAcknowledged(stores, events, byteSize, o, i) {
            if k < |st.writers.applied| {
              assert w'.applied[k] == st.writers.applied[k];
            }
          }
        case _ => WriterStepKeeps(st.writers, step, byteSize);
    }
  }

  lemma {:induction false} PartOfBatch(ops: seq<Op>, first: nat, a: nat, b: nat)
    requires a <= b <= |ops| && first + |ops| <= MAX_SEQUENCE + 1
    ensures BatchSet(ops[a..b], first + a) <= BatchSet(ops, first)
  {
    forall e | e in BatchSet(ops[a..b], first + a) ensures e in BatchSet(ops, first) {
      var i :| 0 <= i < b - a && e == EntryOf(ops[a..b][i], first + a + i);
      assert ops[a..b][i] == ops[a + i];
    }
  }

  /** A writer that was told its batch succeeded: its operations, at sequence numbers of their own,
      are among what no restart loses. */
  lemma {:induction false} SuccessIsAcknowledged(stores: seq<Store>, events: seq<StoreEvent>,
      byteSize: seq<Op> -> nat, o: Options, i: nat, t: nat)
    requires IsStoreRun(stores, events, byteSize, o) && i < |stores|
    requires var w := stores[i].writers;
             t < |w.requests| && t < |w.pcs| && t < |w.done| && w.requests[t].batch.Some?
             && Group.Result(w, t) == Some(Group.Success)
    ensures var w := stores[i].writers;
            exists k ::
              && 0 <= k < |w.applied| && w.applied[k].from <= t < w.applied[k].to
              && w.applied[k].from <= |w.requests|
              && var first, batch := Group.FirstSequence(w, w.applied[k], t), w.requests[t].batch.value;
                 && first + |batch| <= MAX_SEQUENCE + 1
                 && BatchSet(batch, first) <= AllAcknowledged(stores, events, byteSize, o, i)
  {
    hide Group.Inv, Consistent, BatchSet, AllAcknowledged, IsStoreRun, InWork, Group.Offset;
    var w := stores[i].writers;
    StoreRunCoupled(stores, events, byteSize, o, i);
    AppliedAcknowledged(stores, events, byteSize, o, i);
    Group.AppliedExactlyOnce(w, t);
    var k :| 0 <= k < |w.applied| && w.applied[k].from <= t < w.applied[k].to;
    var r, batch := w.applied[k], w.requests[t].batch.value;
    var at := Group.Offset(w, r, t);
    PartOfBatch(r.ops, r.first, at, at + |batch|);
  }
}
