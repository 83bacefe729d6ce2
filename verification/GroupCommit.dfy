/** Writers queue up, and the one at the front commits for those behind it. */
module GroupCommit {
  import opened Format
  import opened Database

  /** A batch, or none when the caller only wants room made, and whether it is to be synced. */
  datatype Request = Request(batch: Option<seq<Op>>, sync: bool)

  // ---------- Building a group ----------

  const SMALL: nat := 131072      // 128 KiB
  const LARGEST: nat := 1048576   // 1 MiB

  function MaxSize(size: nat): nat {
    if size <= SMALL then size + SMALL else LARGEST
  }

  /** May this writer join a group that its leader began? */
  predicate MayJoin(leader: Request, w: Request, size: nat, maxSize: nat, byteSize: seq<Op> -> nat) {
    && (w.sync ==> leader.sync)
    && (w.batch.Some? ==> size + byteSize(w.batch.value) <= maxSize)
  }

  function Bytes(w: Request, byteSize: seq<Op> -> nat): nat {
    if w.batch.Some? then byteSize(w.batch.value) else 0
  }

  function TotalBytes(ws: seq<Request>, byteSize: seq<Op> -> nat): nat {
    if ws == [] then 0 else TotalBytes(ws[..|ws| - 1], byteSize) + Bytes(ws[|ws| - 1], byteSize)
  }

  /** The writers of a queue that its front commits: as many as may join, one after the other. */
  ghost predicate IsGroup(ws: seq<Request>, n: nat, byteSize: seq<Op> -> nat) {
    && 1 <= n <= |ws|
    && (forall i | 1 <= i < n ::
        MayJoin(ws[0], ws[i], TotalBytes(ws[..i], byteSize), MaxSize(Bytes(ws[0], byteSize)), byteSize))
    && (n < |ws| ==> !MayJoin(ws[0], ws[n], TotalBytes(ws[..n], byteSize), MaxSize(Bytes(ws[0], byteSize)), byteSize))
  }

  /** All operations of some writers, in order. */
  function OpsOf(ws: seq<Request>): seq<Op> {
    if ws == [] then []
    else OpsOf(ws[..|ws| - 1]) + if ws[|ws| - 1].batch.Some? then ws[|ws| - 1].batch.value else []
  }

  method BuildBatchGroup(ws: seq<Request>, byteSize: seq<Op> -> nat) returns (n: nat, ops: seq<Op>)
    requires ws != [] && ws[0].batch.Some?
    ensures IsGroup(ws, n, byteSize) && ops == OpsOf(ws[..n])
  {
    hide OpsOf, TotalBytes;
    var first := ws[0];
    ops := first.batch.value;
    var size := byteSize(first.batch.value);
    var maxSize := LARGEST;
    if size <= SMALL {
      maxSize := size + SMALL;
    }
    n := 1;
    GroupOfOne(ws, byteSize);
    while n < |ws|
      invariant 1 <= n <= |ws| && ops == OpsOf(ws[..n]) && size == TotalBytes(ws[..n], byteSize)
      invariant maxSize == MaxSize(Bytes(ws[0], byteSize))
      invariant forall i | 1 <= i < n :: MayJoin(ws[0], ws[i], TotalBytes(ws[..i], byteSize), maxSize, byteSize)
    {
      var w := ws[n];
      GroupOfNext(ws, n, byteSize);
      if w.sync && !first.sync {
        break;
      }
      if w.batch.Some? {
        if size + byteSize(w.batch.value) > maxSize {
          break;
        }
        size := size + byteSize(w.batch.value);
        ops := ops + w.batch.value;
      }
      n := n + 1;
    }
  }

  lemma {:induction false} GroupOfOne(ws: seq<Request>, byteSize: seq<Op> -> nat)
    requires ws != [] && ws[0].batch.Some?
    ensures OpsOf(ws[..1]) == ws[0].batch.value && TotalBytes(ws[..1], byteSize) == byteSize(ws[0].batch.value)
  {
    assert ws[..1][..0] == [];
    assert [] + ws[0].batch.value == ws[0].batch.value;
  }

  lemma {:induction false} GroupOfNext(ws: seq<Request>, n: nat, byteSize: seq<Op> -> nat)
    requires n < |ws|
    ensures OpsOf(ws[..n + 1]) == OpsOf(ws[..n]) + if ws[n].batch.Some? then ws[n].batch.value else []
    ensures TotalBytes(ws[..n + 1], byteSize) == TotalBytes(ws[..n], byteSize) + Bytes(ws[n], byteSize)
    ensures ws[n].batch.None? ==> OpsOf(ws[..n + 1]) == OpsOf(ws[..n])
  {
    assert ws[..n + 1][..n] == ws[..n];
    assert OpsOf(ws[..n]) + [] == OpsOf(ws[..n]);
  }

  // ---------- The queue ----------

  datatype Status = Success | Failure

  /** Where a thread is in its call: waiting, making room, writing to the log, applying, or back. */
  datatype Pc =
    | Waiting
    | MakingRoom
    | Writing(group: nat, first: nat)
    | Applying(group: nat, first: nat)
    | Returned(status: Status)

  /** What was logged or applied for the writers from..to, with consecutive sequence numbers. */
  datatype Record = Record(from: nat, to: nat, first: nat, ops: seq<Op>, synced: bool)

  /** Writers are numbered as they arrive; those from `head` on are in the queue. */
  datatype Writers = Writers(
    requests: seq<Request>,
    pcs: seq<Pc>,
    done: seq<Option<Status>>,
    head: nat,
    lastSequence: nat,
    log: seq<Record>,
    applied: seq<Record>,
    backgroundError: bool
  )

  datatype Event =
    | Arrive(request: Request)
    | Lead(t: nat)
    | RoomFails(t: nat)
    | RoomMade(t: nat, group: nat)
    | Logged(t: nat, ok: bool)
    | Applied(t: nat, ok: bool)
    | Wake(t: nat)

  const EMPTY := Writers([], [], [], 0, 0, [], [], false)

  ghost predicate Can(s: Writers, ev: Event, byteSize: seq<Op> -> nat) {
    match ev
    case Arrive(_) => true
    case Lead(t) => t < |s.pcs| && s.pcs[t] == Waiting && t < |s.done| && s.done[t] == None && t == s.head
    case RoomFails(t) => t < |s.pcs| && s.pcs[t] == MakingRoom
    case RoomMade(t, group) =>
      && t < |s.pcs| && s.pcs[t] == MakingRoom && !s.backgroundError && s.head < |s.requests| && t < |s.requests|
      && if s.requests[t].batch.Some? then IsGroup(s.requests[s.head..], group, byteSize) else group == 1
    case Logged(t, _) => t < |s.pcs| && s.pcs[t].Writing? && t + s.pcs[t].group <= |s.requests|
    case Applied(t, ok) => t < |s.pcs| && s.pcs[t].Applying? && t < |s.requests| && (!ok ==> s.requests[t].sync)
        && s.log != []
                           && t + s.pcs[t].group <= |s.requests|
    case Wake(t) => t < |s.pcs| && s.pcs[t] == Waiting && t < |s.done| && s.done[t].Some?
  }

  /** The leader pops its group, marks the others done and returns. */
  function Complete(s: Writers, t: nat, group: nat, status: Status): Writers
    requires t < |s.pcs|
  {
    s.(pcs := s.pcs[t := Returned(status)], head := s.head + group,
       done := seq(|s.done|, i requires 0 <= i < |s.done| => if s.head <= i < s.head + group && i != t
           then Some(status) else s.done[i]))
  }

  function GroupOps(s: Writers, t: nat, group: nat): seq<Op>
    requires t + group <= |s.requests|
  {
    OpsOf(s.requests[t..t + group])
  }

  ghost function Next(s: Writers, ev: Event, byteSize: seq<Op> -> nat): Writers
    requires Can(s, ev, byteSize)
  {
    match ev
    case Arrive(r) => s.(requests := s.requests + [r], pcs := s.pcs + [Waiting], done := s.done + [None])
    case Lead(t) => s.(pcs := s.pcs[t := MakingRoom])
    case RoomFails(t) => Complete(s, t, 1, Failure)
    case RoomMade(t, group) =>
      if s.requests[t].batch.Some? then s.(pcs := s.pcs[t := Writing(group, s.lastSequence + 1)])
      else Complete(s, t, 1, Success)
    case Logged(t, ok) =>
      var pc, ops := s.pcs[t], GroupOps(s, t, s.pcs[t].group);
      if ok then s.(pcs := s.pcs[t := Applying(pc.group, pc.first)],
          log := s.log + [Record(t, t + pc.group, pc.first, ops, false)])
      else Complete(s.(lastSequence := s.lastSequence + |ops|), t, pc.group, Failure)
    case Applied(t, ok) =>
      var pc, ops := s.pcs[t], GroupOps(s, t, s.pcs[t].group);
      var advanced := s.(lastSequence := s.lastSequence + |ops|);
      if !ok then Complete(advanced.(backgroundError := true), t, pc.group, Failure)
      else
        var n := |s.log| - 1;
        var synced := s.log[n].(synced := s.requests[t].sync);
        Complete(advanced.(log := s.log[n := synced], applied := s.applied + [synced]), t, pc.group, Success)
    case Wake(t) => s.(pcs := s.pcs[t := Returned(s.done[t].value)])
  }

  // ---------- The invariant ----------

  /** What a writer's call returns, once that is settled. */
  function Result(s: Writers, t: nat): Option<Status>
    requires t < |s.pcs| && t < |s.done|
  {
    if s.pcs[t].Returned? then Some(s.pcs[t].status) else s.done[t]
  }

  predicate InSection(pc: Pc) {
    pc.MakingRoom? || pc.Writing? || pc.Applying?
  }

  /** Only the front of the queue may be past waiting, and only those in front of it are settled. */
  ghost predicate QueueOk(s: Writers) {
    && |s.pcs| == |s.requests| == |s.done| && s.head <= |s.requests|
    && (forall t | 0 <= t < |s.pcs| && InSection(s.pcs[t]) :: t == s.head)
    && (forall t | s.head <= t < |s.pcs| :: s.done[t] == None && !s.pcs[t].Returned?)
    && (forall t | 0 <= t < s.head :: Result(s, t).Some?)
    && (forall t | 0 <= t < s.head && s.done[t].Some? && s.pcs[t].Returned? :: s.pcs[t].status == s.done[t].value)
  }

  /** A group begun at the front: no sync writer behind a leader that does not sync. */
  ghost predicate GroupOk(s: Writers, group: nat, first: nat) {
    && 1 <= group && s.head + group <= |s.requests| && first == s.lastSequence + 1
    && s.requests[s.head].batch.Some?
    && forall i | s.head <= i < s.head + group && s.requests[i].sync :: s.requests[s.head].sync
  }

  ghost predicate RecordOk(s: Writers, r: Record) {
    && r.from < r.to <= |s.requests| && r.ops == OpsOf(s.requests[r.from..r.to])
    && forall t | r.from <= t < r.to && s.requests[t].sync :: r.synced
  }

  /** Records do not overlap, neither in writers nor in sequence numbers. */
  ghost predicate InSequence(rs: seq<Record>) {
    forall i, j | 0 <= i < j < |rs| :: rs[i].to <= rs[j].from && rs[i].first + |rs[i].ops| <= rs[j].first
  }

  ghost predicate Settles(s: Writers, rs: seq<Record>) {
    forall i | 0 <= i < |rs| :: rs[i].to <= s.head && rs[i].first + |rs[i].ops| <= s.lastSequence + 1
  }

  ghost predicate Covers(rs: seq<Record>, t: nat) {
    exists k :: 0 <= k < |rs| && rs[k].from <= t < rs[k].to
  }

  /** What is applied is what succeeded. */
  ghost predicate AppliedOk(s: Writers)
    requires QueueOk(s)
  {
    && (forall k | 0 <= k < |s.applied| :: RecordOk(s, s.applied[k]) && s.applied[k] in s.log)
    && InSequence(s.applied) && Settles(s, s.applied)
    && (forall t | 0 <= t < s.head && s.requests[t].batch.Some? && Result(s, t) == Some(Success) ::
        Covers(s.applied, t))
    && (forall t | 0 <= t < s.head && Covers(s.applied, t) :: Result(s, t) == Some(Success))
  }

  /** Everything logged before the record in work is settled. */
  ghost predicate LogOk(s: Writers)
    requires QueueOk(s)
  {
    && InSequence(s.log)
    && if s.head < |s.pcs| && s.pcs[s.head].Applying? then
         var n := |s.log| - 1;
         var pc := s.pcs[s.head];
         && s.log != [] && Settles(s, s.log[..n]) && s.head + pc.group <= |s.requests|
         && s.log[n] == Record(s.head, s.head + pc.group, pc.first, GroupOps(s, s.head, pc.group), false)
       else Settles(s, s.log)
  }

  ghost predicate Inv(s: Writers) {
    && QueueOk(s) && AppliedOk(s) && LogOk(s)
    && (s.head < |s.pcs| && (s.pcs[s.head].Writing? || s.pcs[s.head].Applying?) ==>
        GroupOk(s, s.pcs[s.head].group, s.pcs[s.head].first))
  }

  lemma {:induction false} EmptyInv()
    ensures Inv(EMPTY)
  {
  }

  // ---------- Every step keeps it ----------

  lemma {:induction false} ArriveKeeps(s: Writers, r: Request, byteSize: seq<Op> -> nat)
    requires Inv(s)
    ensures Inv(Next(s, Arrive(r), byteSize))
  {
    hide OpsOf;
    var s' := Next(s, Arrive(r), byteSize);
    SameSlices(s.requests, r);
    assert forall t | 0 <= t < s.head :: Result(s', t) == Result(s, t);
    forall k | 0 <= k < |s.applied| ensures RecordOk(s', s.applied[k]) {
      assert RecordOk(s, s.applied[k]);
    }
  }

  lemma {:induction false} SameSlices(ws: seq<Request>, r: Request)
    ensures forall i, j | 0 <= i <= j <= |ws| :: (ws + [r])[i..j] == ws[i..j]
  {
  }

  /** A change of what the front thread is doing, and of nothing else. */
  lemma {:induction false} FrontMovesOn(s: Writers, s': Writers, pc: Pc)
    requires Inv(s) && s.head < |s.pcs| && s' == s.(pcs := s.pcs[s.head := pc]) && !s.pcs[s.head].Applying?
    requires pc.MakingRoom? || (pc.Writing? && GroupOk(s, pc.group, pc.first))
    ensures Inv(s')
  {
    hide OpsOf;
    forall t | 0 <= t < s.head ensures Result(s', t) == Result(s, t) {
    }
    forall k | 0 <= k < |s.applied| ensures RecordOk(s', s.applied[k]) {
      assert RecordOk(s, s.applied[k]);
    }
  }

  lemma {:induction false} WakeKeeps(s: Writers, t: nat, byteSize: seq<Op> -> nat)
    requires Inv(s) && Can(s, Wake(t), byteSize)
    ensures Inv(Next(s, Wake(t), byteSize))
  {
    hide OpsOf;
    var s' := Next(s, Wake(t), byteSize);
    assert t < s.head;
    forall u | 0 <= u < s.head ensures Result(s', u) == Result(s, u) {
    }
    forall k | 0 <= k < |s.applied| ensures RecordOk(s', s.applied[k]) {
      assert RecordOk(s, s.applied[k]);
    }
  }

  /** What becomes of the queue when the front pops its group. */
  lemma {:induction false} CompleteKeepsQueue(s: Writers, group: nat, status: Status)
    requires QueueOk(s) && s.head < |s.pcs| && 1 <= group && s.head + group <= |s.requests|
    ensures var s' := Complete(s, s.head, group, status);
            && QueueOk(s')
            && (forall t | 0 <= t < s.head :: Result(s', t) == Result(s, t))
            && (forall t | s.head <= t < s.head + group :: Result(s', t) == Some(status))
            && forall t | 0 <= t < |s'.pcs| :: !InSection(s'.pcs[t])
  {
    var s' := Complete(s, s.head, group, status);
    forall t | 0 <= t < |s.pcs|
      ensures t < s.head ==> Result(s', t) == Result(s, t)
      ensures s.head <= t < s.head + group ==> Result(s', t) == Some(status)
    {
    }
  }

  /** Popping a group that adds nothing to what is applied. */
  lemma {:induction false} NothingApplied(s: Writers, s': Writers, group: nat, status: Status)
    requires Inv(s) && s.head < |s.pcs| && 1 <= group && s.head + group <= |s.requests|
    requires QueueOk(s') && s'.requests == s.requests && s'.head == s.head + group && s'.applied == s.applied
    requires s.lastSequence <= s'.lastSequence && forall r | r in s.log :: r in s'.log
    requires forall t | 0 <= t < s.head :: Result(s', t) == Result(s, t)
    requires forall t | s.head <= t < s.head + group :: Result(s', t) == Some(status)
    requires status == Failure || forall t | s.head <= t < s.head + group :: s.requests[t].batch.None?
    ensures AppliedOk(s')
  {
    hide OpsOf;
    forall k | 0 <= k < |s.applied| ensures RecordOk(s', s.applied[k]) && s.applied[k] in s'.log {
      assert RecordOk(s, s.applied[k]);
    }
    forall t | 0 <= t < s'.head && Covers(s'.applied, t) ensures Result(s', t) == Some(Success) {
      var k :| 0 <= k < |s.applied| && s.applied[k].from <= t < s.applied[k].to;
      assert t < s.head && Covers(s.applied, t);
    }
    forall t | 0 <= t < s'.head && s.requests[t].batch.Some? && Result(s', t) == Some(Success)
        ensures Covers(s'.applied, t) {
      assert t < s.head;
    }
  }

  lemma {:induction false} RoomKeeps(s: Writers, ev: Event, byteSize: seq<Op> -> nat)
    requires Inv(s) && Can(s, ev, byteSize) && (ev.RoomFails? || ev.RoomMade?)
    ensures Inv(Next(s, ev, byteSize))
  {
    hide OpsOf;
    var s', t := Next(s, ev, byteSize), ev.t;
    if ev.RoomMade? && s.requests[t].batch.Some? {
      GroupIsOk(s, ev.group, byteSize);
      FrontMovesOn(s, s', Writing(ev.group, s.lastSequence + 1));
    } else {
      var status := if ev.RoomMade? then Success else Failure;
      CompleteKeepsQueue(s, 1, status);
      NothingApplied(s, s', 1, status);
    }
  }

  lemma {:induction false} GroupIsOk(s: Writers, group: nat, byteSize: seq<Op> -> nat)
    requires s.head < |s.requests| && s.requests[s.head].batch.Some? && IsGroup(s.requests[s.head..], group, byteSize)
    ensures GroupOk(s, group, s.lastSequence + 1)
  {
    hide TotalBytes;
    var ws := s.requests[s.head..];
    forall i | s.head <= i < s.head + group && s.requests[i].sync ensures s.requests[s.head].sync {
      var j := i - s.head;
      assert ws[j] == s.requests[i];
      if j > 0 {
        assert MayJoin(ws[0], ws[j], TotalBytes(ws[..j], byteSize), MaxSize(Bytes(ws[0], byteSize)), byteSize);
      }
    }
  }

  lemma {:induction false} LoggedKeeps(s: Writers, t: nat, ok: bool, byteSize: seq<Op> -> nat)
    requires Inv(s) && Can(s, Logged(t, ok), byteSize)
    ensures Inv(Next(s, Logged(t, ok), byteSize))
  {
    hide OpsOf;
    var s', pc := Next(s, Logged(t, ok), byteSize), s.pcs[t];
    if ok {
      assert s'.log[..|s'.log| - 1] == s.log;
      forall u | 0 <= u < s.head ensures Result(s', u) == Result(s, u) {
      }
      forall k | 0 <= k < |s.applied| ensures RecordOk(s', s.applied[k]) && s.applied[k] in s'.log {
        assert RecordOk(s, s.applied[k]);
      }
    } else {
      assert forall u | 0 <= u < s.head :: Result(s.(lastSequence := s'.lastSequence), u) == Result(s, u);
      CompleteKeepsQueue(s.(lastSequence := s'.lastSequence), pc.group, Failure);
      NothingApplied(s, s', pc.group, Failure);
    }
  }

  lemma {:induction false} AppliedKeeps(s: Writers, t: nat, ok: bool, byteSize: seq<Op> -> nat)
    requires Inv(s) && Can(s, Applied(t, ok), byteSize)
    ensures Inv(Next(s, Applied(t, ok), byteSize))
  {
    hide OpsOf, RecordOk;
    var s', pc, n := Next(s, Applied(t, ok), byteSize), s.pcs[t], |s.log| - 1;
    var before := s.(lastSequence := s'.lastSequence, log := s'.log, applied := s'.applied,
        backgroundError := s'.backgroundError);
    assert forall u | 0 <= u < s.head :: Result(before, u) == Result(s, u);
    CompleteKeepsQueue(before, pc.group, if ok then Success else Failure);
    LogSettles(s, s', n);
    if ok {
      AppliedRecordOk(s, s'.log[n]);
      AppliedGrows(s, s', pc.group, s'.log[n]);
    } else {
      NothingApplied(s, s', pc.group, Failure);
    }
  }

  lemma {:induction false} AppliedRecordOk(s: Writers, r: Record)
    requires Inv(s) && s.head < |s.pcs| && s.pcs[s.head].Applying? && s.log != []
    requires r == s.log[|s.log| - 1].(synced := s.requests[s.head].sync)
    ensures RecordOk(s, r) && r.from == s.head && r.to == s.head + s.pcs[s.head].group && r.first == s.lastSequence + 1
  {
    hide OpsOf, AppliedOk;
  }

  /** The record in work is finished. */
  lemma {:induction false} LogSettles(s: Writers, s': Writers, n: nat)
    requires Inv(s) && s.head < |s.pcs| && s.pcs[s.head].Applying? && n == |s.log| - 1
    requires |s'.log| == |s.log| && s'.log[..n] == s.log[..n] && s'.log[n] == s.log[n].(synced := s'.log[n].synced)
    requires s'.head == s.head + s.pcs[s.head].group && s'.lastSequence == s.lastSequence + |s.log[n].ops|
    ensures InSequence(s'.log) && Settles(s', s'.log)
    ensures forall r | r in s.applied :: r in s'.log && r in s.log[..n]
  {
    hide OpsOf;
    forall i | 0 <= i < |s'.log|
      ensures s'.log[i].from == s.log[i].from && s'.log[i].to == s.log[i].to && s'.log[i].first == s.log[i].first
          && s'.log[i].ops == s.log[i].ops
    {
      assert i < n ==> s'.log[..n][i] == s.log[..n][i];
    }
    forall i | 0 <= i < n ensures s.log[i].to <= s.head && s.log[i].first + |s.log[i].ops| <= s.lastSequence + 1 {
      assert s.log[..n][i] == s.log[i];
    }
    forall k | 0 <= k < |s.applied| ensures s.applied[k] in s.log[..n] {
      var j :| 0 <= j < |s.log| && s.log[j] == s.applied[k];
      assert s.applied[k].to <= s.head;
      assert s.log[..n][j] == s.log[j];
    }
    forall r | r in s.log[..n] ensures r in s'.log {
      var j :| 0 <= j < n && s.log[..n][j] == r;
      assert s'.log[j] == r;
    }
  }

  lemma {:induction false} AppliedGrows(s: Writers, s': Writers, group: nat, r: Record)
    requires QueueOk(s) && AppliedOk(s) && QueueOk(s') && s'.requests == s.requests && s'.head == s.head + group
    requires RecordOk(s, r) && r.from == s.head && r.to == s'.head && r.first == s.lastSequence + 1
    requires s'.applied == s.applied + [r] && r in s'.log && s'.lastSequence == s.lastSequence + |r.ops|
    requires forall x | x in s.applied :: x in s'.log
    requires forall t | 0 <= t < s.head :: Result(s', t) == Result(s, t)
    requires forall t | s.head <= t < s.head + group :: Result(s', t) == Some(Success)
    ensures AppliedOk(s')
  {
    hide OpsOf;
    var m := |s.applied|;
    forall k | 0 <= k <= m ensures RecordOk(s', s'.applied[k]) && s'.applied[k] in s'.log {
      if k < m {
        assert s'.applied[k] == s.applied[k] && RecordOk(s, s.applied[k]);
      }
    }
    CoverageGrows(s, s', r);
  }

  lemma {:induction false} CoverageGrows(s: Writers, s': Writers, r: Record)
    requires QueueOk(s) && AppliedOk(s) && QueueOk(s') && s'.requests == s.requests && s.head <= s'.head
    requires r.from == s.head && r.to == s'.head && s'.applied == s.applied + [r]
    requires forall t | 0 <= t < s.head :: Result(s', t) == Result(s, t)
    requires forall t | s.head <= t < s'.head :: Result(s', t) == Some(Success)
    ensures forall t | 0 <= t < s'.head && s.requests[t].batch.Some? && Result(s', t) == Some(Success) ::
        Covers(s'.applied, t)
    ensures forall t | 0 <= t < s'.head && Covers(s'.applied, t) :: Result(s', t) == Some(Success)
  {
    hide OpsOf, RecordOk, InSequence;
    var m := |s.applied|;
    forall t | 0 <= t < s'.head && s.requests[t].batch.Some? && Result(s', t) == Some(Success)
        ensures Covers(s'.applied, t) {
      if t < s.head {
        var k :| 0 <= k < m && s.applied[k].from <= t < s.applied[k].to;
        assert s'.applied[k] == s.applied[k];
      } else {
        assert s'.applied[m].from <= t < s'.applied[m].to;
      }
    }
    forall t | 0 <= t < s'.head && Covers(s'.applied, t) ensures Result(s', t) == Some(Success) {
      var k :| 0 <= k <= m && s'.applied[k].from <= t < s'.applied[k].to;
      if k < m {
        assert s'.applied[k] == s.applied[k] && Covers(s.applied, t);
      }
    }
  }

  lemma {:induction false} StepKeepsInv(s: Writers, ev: Event, byteSize: seq<Op> -> nat)
    requires Inv(s) && Can(s, ev, byteSize)
    ensures Inv(Next(s, ev, byteSize))
  {
    match ev
    case Arrive(r) => ArriveKeeps(s, r, byteSize);
    case Lead(t) => FrontMovesOn(s, Next(s, ev, byteSize), MakingRoom);
    case RoomFails(t) => RoomKeeps(s, ev, byteSize);
    case RoomMade(t, group) => RoomKeeps(s, ev, byteSize);
    case Logged(t, ok) => LoggedKeeps(s, t, ok, byteSize);
    case Applied(t, ok) => AppliedKeeps(s, t, ok, byteSize);
    case Wake(t) => WakeKeeps(s, t, byteSize);
  }

  // ---------- Whole runs ----------

  ghost predicate IsRun(states: seq<Writers>, events: seq<Event>, byteSize: seq<Op> -> nat) {
    && |states| == |events| + 1 && states[0] == EMPTY
    && forall i | 0 <= i < |events| ::
        Can(states[i], events[i], byteSize) && states[i + 1] == Next(states[i], events[i], byteSize)
  }

  lemma {:induction false} RunKeepsInv(states: seq<Writers>, events: seq<Event>, byteSize: seq<Op> -> nat, i: nat)
    requires IsRun(states, events, byteSize) && i < |states|
    ensures Inv(states[i])
  {
    hide Inv, Can, Next;
    if i == 0 {
      EmptyInv();
    } else {
      RunKeepsInv(states, events, byteSize, i - 1);
      StepKeepsInv(states[i - 1], events[i - 1], byteSize);
    }
  }

  /** At most one writer is making room, logging or applying. */
  lemma {:induction false} OneInSection(s: Writers, t: nat, u: nat)
    requires Inv(s) && t < |s.pcs| && u < |s.pcs| && InSection(s.pcs[t]) && InSection(s.pcs[u])
    ensures t == u
  {
    hide AppliedOk, LogOk, GroupOk;
  }

  lemma {:induction false} OpsOfSplit(ws: seq<Request>, i: nat)
    requires i <= |ws|
    ensures |OpsOf(ws[..i])| <= |OpsOf(ws)| && OpsOf(ws)[..|OpsOf(ws[..i])|] == OpsOf(ws[..i])
    decreases |ws| - i
  {
    if i == |ws| {
      assert ws[..i] == ws;
    } else {
      OpsOfSplit(ws, i + 1);
      assert ws[..i + 1][..i] == ws[..i];
    }
  }

  /** Where in its record's operations a writer's batch begins. */
  function Offset(s: Writers, r: Record, t: nat): nat
    requires r.from <= t <= |s.requests|
  {
    |OpsOf(s.requests[r.from..t])|
  }

  lemma {:induction false} BatchInRecord(s: Writers, r: Record, t: nat)
    requires RecordOk(s, r) && r.from <= t < r.to && s.requests[t].batch.Some?
    ensures var at, batch := Offset(s, r, t), s.requests[t].batch.value;
            && at + |batch| <= |r.ops| && r.ops[at..at + |batch|] == batch
            && (t + 1 <= r.to ==> Offset(s, r, t + 1) == at + |batch|)
  {
    var ws, i, batch := s.requests[r.from..r.to], t - r.from, s.requests[t].batch.value;
    assert ws[..i] == s.requests[r.from..t] && ws[..i + 1] == s.requests[r.from..t + 1];
    assert ws[..i + 1][..i] == ws[..i] && ws[i] == s.requests[t];
    assert OpsOf(ws[..i + 1]) == OpsOf(ws[..i]) + batch;
    OpsOfSplit(ws, i + 1);
    var at := |OpsOf(ws[..i])|;
    assert r.ops[..at + |batch|] == OpsOf(ws[..i]) + batch;
    assert r.ops[at..at + |batch|] == r.ops[..at + |batch|][at..];
  }

  /** A batch that succeeded is in exactly one applied record, which is logged, and there in one
      piece; a sync batch is in a synced one. A batch that failed is in none. */
  lemma {:induction false} AppliedExactlyOnce(s: Writers, t: nat)
    requires Inv(s) && t < |s.requests| && s.requests[t].batch.Some?
    ensures Result(s, t) == Some(Success) ==>
              exists k :: 0 <= k < |s.applied| && s.applied[k].from <= t < s.applied[k].to
    ensures Result(s, t) == Some(Failure) ==> !Covers(s.applied, t)
    ensures forall k | 0 <= k < |s.applied| && s.applied[k].from <= t < s.applied[k].to ::
              var r, batch := s.applied[k], s.requests[t].batch.value;
              && Result(s, t) == Some(Success) && r in s.log && (s.requests[t].sync ==> r.synced)
              && (forall j | 0 <= j < |s.applied| && s.applied[j].from <= t < s.applied[j].to :: j == k)
              && Offset(s, r, t) + |batch| <= |r.ops| && r.ops[Offset(s, r, t)..Offset(s, r, t) + |batch|] == batch
  {
    hide LogOk, GroupOk, OpsOf, RecordOk;
    SettledInFront(s, t);
    forall k | 0 <= k < |s.applied| && s.applied[k].from <= t < s.applied[k].to
      ensures var r, batch := s.applied[k], s.requests[t].batch.value;
              && Result(s, t) == Some(Success) && (s.requests[t].sync ==> r.synced)
              && Offset(s, r, t) + |batch| <= |r.ops| && r.ops[Offset(s, r, t)..Offset(s, r, t) + |batch|] == batch
    {
      assert Covers(s.applied, t) && t < s.head;
      SyncedRecord(s, s.applied[k], t);
      BatchInRecord(s, s.applied[k], t);
    }
  }

  lemma {:induction false} SyncedRecord(s: Writers, r: Record, t: nat)
    requires RecordOk(s, r) && r.from <= t < r.to
    ensures s.requests[t].sync ==> r.synced
  {
    hide OpsOf;
  }

  lemma {:induction false} SettledInFront(s: Writers, t: nat)
    requires QueueOk(s) && t < |s.requests|
    ensures Result(s, t).Some? <==> t < s.head
  {
  }

  /** The sequence number of a batch's first operation. */
  function FirstSequence(s: Writers, r: Record, t: nat): nat
    requires r.from <= t <= |s.requests|
  {
    r.first + Offset(s, r, t)
  }

  /** Batches take their sequence numbers in queue order, and no number is taken twice, within a
      group or across groups. */
  lemma {:induction false} NumbersInQueueOrder(s: Writers, j: nat, k: nat, t: nat, u: nat)
    requires Inv(s) && t < u < |s.requests| && s.requests[t].batch.Some? && s.requests[u].batch.Some?
    requires j < |s.applied| && s.applied[j].from <= t < s.applied[j].to
    requires k < |s.applied| && s.applied[k].from <= u < s.applied[k].to
    ensures FirstSequence(s, s.applied[j], t) + |s.requests[t].batch.value| <= FirstSequence(s, s.applied[k], u)
    ensures FirstSequence(s, s.applied[k], u) + |s.requests[u].batch.value| <= s.lastSequence + 1
  {
    hide LogOk, GroupOk, OpsOf, RecordOk;
    BatchInRecord(s, s.applied[j], t);
    BatchInRecord(s, s.applied[k], u);
    if j == k {
      LaterOffset(s, s.applied[j], t + 1, u);
      WithinRecord(s, s.applied[j], t);
    } else {
      Apart(s.applied, k, j);
    }
  }

  lemma {:induction false} Apart(rs: seq<Record>, i: nat, j: nat)
    requires InSequence(rs) && i < |rs| && j < |rs|
    ensures i < j ==> rs[i].to <= rs[j].from
  {
  }

  lemma {:induction false} WithinRecord(s: Writers, r: Record, t: nat)
    requires RecordOk(s, r) && r.from <= t < r.to && s.requests[t].batch.Some?
    ensures Offset(s, r, t + 1) == Offset(s, r, t) + |s.requests[t].batch.value|
  {
    BatchInRecord(s, r, t);
  }

  lemma {:induction false} LaterOffset(s: Writers, r: Record, t: nat, u: nat)
    requires r.from <= t <= u <= |s.requests|
    ensures Offset(s, r, t) <= Offset(s, r, u)
  {
    var ws := s.requests[r.from..u];
    assert ws[..t - r.from] == s.requests[r.from..t];
    OpsOfSplit(ws, t - r.from);
  }
}
