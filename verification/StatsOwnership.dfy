/** The stats job: several nodes share one record (offset, owner), a lock and a view of who is
    alive.  Each step below is one call that a node makes; steps of different nodes interleave
    freely and a node may crash between any two of its steps.  Node ids are fresh, so a crashed id
    never comes back; the lock is correct and is released when its holder crashes. */
module StatsOwnership {
  import opened Options

  type Node = nat

  datatype Pc =
    | Idle
    | HaveLatest(latest: int)                              // max(updated_at) read
    | Read(latest: int, offset: int, owner: Option<Node>)  // record read, liveness not yet checked
    | WantLock(latest: int)
    | Locked(latest: int)
    | LockRead(latest: int, offset: int, owner: Option<Node>)
    | Binding(latest: int, offset: int)                    // check passed under the lock
    | Bound(latest: int, offset: int)                      // owner written, lock still held
    | Past(latest: int, offset: int)                       // past the ownership check
    | Working(latest: int, offset: int)

  datatype State = State(
    offset: int, owner: Option<Node>,       // the shared record
    lock: Option<Node>,
    pcs: map<Node, Pc>, crashed: set<Node>,
    commits: seq<(int, int)>)               // the (last, latest] intervals of committed runs

  datatype Step =
    | ReadLatest(n: Node, latest: int)
    | ReadOffset(n: Node)
    | ReadOffsetFails(n: Node)              // a failed read is taken for (0, "")
    | Check(n: Node)
    | Lock(n: Node)
    | LockFails(n: Node)
    | LockedRead(n: Node)
    | LockedReadFails(n: Node)
    | LockedCheck(n: Node)
    | Bind(n: Node)
    | BindFails(n: Node)
    | Unlock(n: Node)
    | UnlockFails(n: Node)
    | Decide(n: Node)
    | WorkFails(n: Node)
    | Commit(n: Node)
    | CommitFails(n: Node)
    | Crash(n: Node)

  function PcOf(s: State, n: Node): Pc {
    if n in s.pcs then s.pcs[n] else Idle
  }

  function Goto(s: State, n: Node, pc: Pc): State {
    s.(pcs := s.pcs[n := pc])
  }

  predicate Alive(s: State, n: Node) {
    n !in s.crashed
  }

  /** Another live node owns the job. */
  predicate TakenByOther(s: State, n: Node, owner: Option<Node>) {
    owner.Some? && owner.value != n && Alive(s, owner.value)
  }

  /** One step; a step that is not enabled changes nothing. */
  function Apply(s: State, step: Step): State {
    var n := step.n;
    var pc := PcOf(s, n);
    if !Alive(s, n) then s
    else match step
      case ReadLatest(_, latest) =>
        if pc.Idle? && latest != 0 then Goto(s, n, HaveLatest(latest)) else s
      case ReadOffset(_) =>
        if pc.HaveLatest? then Goto(s, n, Read(pc.latest, s.offset, s.owner)) else s
      case ReadOffsetFails(_) =>
        if pc.HaveLatest? then Goto(s, n, Read(pc.latest, 0, None)) else s
      case Check(_) =>
        if !pc.Read? then s
        else if TakenByOther(s, n, pc.owner) then Goto(s, n, Idle)
        else if pc.owner == Some(n) then Goto(s, n, Past(pc.latest, pc.offset))
        else Goto(s, n, WantLock(pc.latest))
      case Lock(_) =>
        if pc.WantLock? && s.lock.None? then Goto(s, n, Locked(pc.latest)).(lock := Some(n)) else s
      case LockFails(_) =>
        if pc.WantLock? then Goto(s, n, Idle) else s
      case LockedRead(_) =>
        if pc.Locked? then Goto(s, n, LockRead(pc.latest, s.offset, s.owner)) else s
      case LockedReadFails(_) =>
        if pc.Locked? then Goto(s, n, LockRead(pc.latest, 0, None)) else s
      case LockedCheck(_) =>
        if !pc.LockRead? then s
        else if TakenByOther(s, n, pc.owner) then Goto(s, n, Idle).(lock := None)
        else Goto(s, n, Binding(pc.latest, pc.offset))
      case Bind(_) =>
        if pc.Binding? then Goto(s, n, Bound(pc.latest, pc.offset)).(offset := pc.offset, owner := Some(n)) else s
      case BindFails(_) =>
        if pc.Binding? then Goto(s, n, Idle).(lock := None) else s
      case Unlock(_) =>
        if pc.Bound? then Goto(s, n, Past(pc.latest, pc.offset)).(lock := None) else s
      case UnlockFails(_) =>
        if pc.Bound? then Goto(s, n, Idle).(lock := None) else s
      case Decide(_) =>
        if !pc.Past? then s
        else if pc.offset >= pc.latest then Goto(s, n, Idle)
        else Goto(s, n, Working(pc.latest, pc.offset))
      case WorkFails(_) =>
        if pc.Working? then Goto(s, n, Idle) else s
      case Commit(_) =>
        if pc.Working?
        then Goto(s, n, Idle).(offset := pc.latest, owner := Some(n), commits := s.commits + [(pc.offset, pc.latest)])
        else s
      case CommitFails(_) =>
        if pc.Working? then Goto(s, n, Idle) else s
      case Crash(_) =>
        s.(crashed := s.crashed + {n}, lock := if s.lock == Some(n) then None else s.lock)
  }

  function Run(s: State, steps: seq<Step>): State {
    if steps == [] then s else Apply(Run(s, steps[..|steps| - 1]), steps[|steps| - 1])
  }

  predicate Initial(s: State) {
    s.lock.None? && s.pcs == map[] && s.commits == []
  }

  // ----- The invariant -----

  predicate HoldsLock(pc: Pc) {
    pc.Locked? || pc.LockRead? || pc.Binding? || pc.Bound?
  }

  predicate PastCheck(pc: Pc) {
    pc.Bound? || pc.Past? || pc.Working?
  }

  /** What a live node may rely on at each point of its run. */
  predicate NodeInv(s: State, n: Node) {
    var pc := PcOf(s, n);
    && (HoldsLock(pc) <==> s.lock == Some(n))
    && (PastCheck(pc) ==> s.owner == Some(n) && s.offset == pc.offset)
    && (pc.Working? ==> pc.offset < pc.latest)
    && (pc.Read? && pc.owner == Some(n) ==> s.owner == Some(n) && s.offset == pc.offset)
    && (pc.LockRead? ==>
        s.owner == pc.owner && (s.offset == pc.offset || (pc.offset < s.offset && s.owner.Some? && s.owner != Some(n))))
    && (pc.Binding? ==> !TakenByOther(s, n, s.owner) &&
                        (s.offset == pc.offset || (pc.offset < s.offset && s.owner.Some? && s.owner != Some(n))))
  }

  ghost predicate Inv(s: State) {
    && (forall n: Node :: Alive(s, n) ==> NodeInv(s, n))
    && (s.lock.Some? ==> Alive(s, s.lock.value))
  }

  lemma StepKeepsNode(s: State, step: Step, m: Node)
    requires !step.LockedReadFails?
    requires Alive(s, step.n) && NodeInv(s, step.n)
    requires Alive(Apply(s, step), m) && NodeInv(s, m)
    ensures NodeInv(Apply(s, step), m)
  {
  }

  /** Every step but a failed read under the lock keeps the invariant. */
  lemma StepKeepsInv(s: State, step: Step)
    requires Inv(s) && !step.LockedReadFails?
    ensures Inv(Apply(s, step))
  {
    if Alive(s, step.n) {
      var s' := Apply(s, step);
      assert NodeInv(s, step.n);
      forall m: Node | Alive(s', m) ensures NodeInv(s', m) {
        assert NodeInv(s, m);
        StepKeepsNode(s, step, m);
      }
    }
  }

  predicate LockedReadsSucceed(steps: seq<Step>) {
    forall i :: 0 <= i < |steps| ==> !steps[i].LockedReadFails?
  }

  lemma {:induction false} RunKeepsInv(s: State, steps: seq<Step>)
    requires Inv(s) && LockedReadsSucceed(steps)
    ensures Inv(Run(s, steps))
  {
    if steps != [] {
      RunKeepsInv(s, steps[..|steps| - 1]);
      StepKeepsInv(Run(s, steps[..|steps| - 1]), steps[|steps| - 1]);
    }
  }

  // ----- At most one owner -----

  /** A live node acts as the owner: it is past the check, or it has read its own name. */
  predicate Engaged(s: State, n: Node) {
    var pc := PcOf(s, n);
    Alive(s, n) && (PastCheck(pc) || (pc.Read? && pc.owner == Some(n)))
  }

  ghost predicate SingleOwner(s: State) {
    forall a: Node, b: Node :: Engaged(s, a) && Engaged(s, b) ==> a == b
  }

  /** A take-over binds the job while another live node acts as its owner. */
  ghost predicate StealingBind(s: State, step: Step) {
    && step.Bind? && Alive(s, step.n) && PcOf(s, step.n).Binding?
    && exists m: Node :: m != step.n && Engaged(s, m)
  }

  /** Whoever acts as the owner is recorded as such. */
  ghost predicate OwnersRecorded(s: State) {
    forall n: Node :: Engaged(s, n) ==> s.owner == Some(n)
  }

  lemma StepKeepsOwners(s: State, step: Step)
    requires OwnersRecorded(s) && !StealingBind(s, step)
    ensures OwnersRecorded(Apply(s, step))
  {
    var s' := Apply(s, step);
    forall n: Node | Engaged(s', n) ensures s'.owner == Some(n) {
      assert n != step.n ==> Engaged(s, n);
    }
  }

  lemma StealingBindBreaks(s: State, step: Step)
    requires StealingBind(s, step)
    ensures !SingleOwner(Apply(s, step))
  {
    var m: Node :| m != step.n && Engaged(s, m);
    assert Engaged(Apply(s, step), m) && Engaged(Apply(s, step), step.n);
  }

  ghost predicate NoStealing(s: State, steps: seq<Step>) {
    forall i :: 0 <= i < |steps| ==> !StealingBind(Run(s, steps[..i]), steps[i])
  }

  lemma {:induction false} OwnersRecordedThroughout(s: State, steps: seq<Step>, k: nat)
    requires Initial(s) && NoStealing(s, steps) && k <= |steps|
    ensures OwnersRecorded(Run(s, steps[..k]))
  {
    if k > 0 {
      assert steps[..k][..k - 1] == steps[..k - 1];
      OwnersRecordedThroughout(s, steps, k - 1);
      StepKeepsOwners(Run(s, steps[..k - 1]), steps[k - 1]);
    }
  }

  ghost predicate SingleOwnerThroughout(s: State, steps: seq<Step>) {
    forall k :: 0 <= k <= |steps| ==> SingleOwner(Run(s, steps[..k]))
  }

  lemma StealingBreaksRun(s: State, steps: seq<Step>, i: nat)
    requires i < |steps| && StealingBind(Run(s, steps[..i]), steps[i])
    ensures !SingleOwnerThroughout(s, steps)
  {
    assert steps[..i + 1][..i] == steps[..i];
    StealingBindBreaks(Run(s, steps[..i]), steps[i]);
    assert !SingleOwner(Run(s, steps[..i + 1]));
  }

  // ----- Who steals -----

  predicate ReadsUnderLock(s: State, step: Step, n: Node) {
    (step == LockedRead(n) || step == LockedReadFails(n)) && Alive(s, n) && PcOf(s, n).Locked?
  }

  /** The last read that `n` made under the lock failed. */
  ghost predicate ReadFailed(s: State, steps: seq<Step>, n: Node) {
    steps != [] &&
    var front, last := steps[..|steps| - 1], steps[|steps| - 1];
    if ReadsUnderLock(Run(s, front), last, n) then last.LockedReadFails? else ReadFailed(s, front, n)
  }

  /** What a live node may rely on about the lock, and about the owner if its locked read did not fail. */
  predicate Trusts(s: State, n: Node, failed: bool) {
    var pc := PcOf(s, n);
    && (HoldsLock(pc) <==> s.lock == Some(n))
    && (pc.LockRead? && !failed ==> s.owner == pc.owner)
    && (pc.Binding? && !failed ==> !TakenByOther(s, n, s.owner))
  }

  lemma StepKeepsTrust(s: State, step: Step, m: Node, failed: bool, failed': bool)
    requires Alive(s, step.n) && (HoldsLock(PcOf(s, step.n)) <==> s.lock == Some(step.n))
    requires Engaged(s, step.n) ==> s.owner == Some(step.n)
    requires Alive(Apply(s, step), m) && Trusts(s, m, failed)
    requires failed' == if ReadsUnderLock(s, step, m) then step.LockedReadFails? else failed
    ensures Trusts(Apply(s, step), m, failed')
  {
  }

  ghost predicate AllTrust(s: State, steps: seq<Step>) {
    forall n: Node :: Alive(Run(s, steps), n) ==> Trusts(Run(s, steps), n, ReadFailed(s, steps, n))
  }

  lemma {:induction false} TrustThroughout(s: State, steps: seq<Step>)
    requires Initial(s) && NoStealing(s, steps)
    ensures AllTrust(s, steps)
  {
    if steps != [] {
      var front, step := steps[..|steps| - 1], steps[|steps| - 1];
      NoStealingFront(s, steps);
      TrustThroughout(s, front);
      OwnersRecordedThroughout(s, steps, |front|);
      var e := Run(s, front);
      forall n: Node | Alive(Apply(e, step), n) ensures Trusts(Apply(e, step), n, ReadFailed(s, steps, n)) {
        assert Alive(e, n) && Trusts(e, n, ReadFailed(s, front, n));
        if Alive(e, step.n) {
          assert Trusts(e, step.n, ReadFailed(s, front, step.n));
          StepKeepsTrust(e, step, n, ReadFailed(s, front, n), ReadFailed(s, steps, n));
        }
      }
    }
  }

  lemma NoStealingFront(s: State, steps: seq<Step>)
    requires steps != [] && NoStealing(s, steps)
    ensures NoStealing(s, steps[..|steps| - 1])
  {
    var front := steps[..|steps| - 1];
    forall i | 0 <= i < |front| ensures !StealingBind(Run(s, front[..i]), front[i]) {
      assert front[..i] == steps[..i];
    }
  }

  /** The job is first stolen by a node whose own last read under the lock failed. */
  lemma FirstStealFollowsFailedRead(s: State, steps: seq<Step>, step: Step)
    requires Initial(s) && NoStealing(s, steps) && StealingBind(Run(s, steps), step)
    ensures ReadFailed(s, steps, step.n)
  {
    var e := Run(s, steps);
    TrustThroughout(s, steps);
    assert steps[..|steps|] == steps;
    OwnersRecordedThroughout(s, steps, |steps|);
    var m: Node :| m != step.n && Engaged(e, m);
    assert Trusts(e, step.n, ReadFailed(s, steps, step.n));
  }

  lemma {:induction false} ReadFailedSaysSo(s: State, steps: seq<Step>, n: Node)
    requires LockedReadsSucceed(steps)
    ensures !ReadFailed(s, steps, n)
  {
    if steps != [] { ReadFailedSaysSo(s, steps[..|steps| - 1], n); }
  }

  lemma {:induction false} NoStealingIfReadsSucceed(s: State, steps: seq<Step>)
    requires Initial(s) && LockedReadsSucceed(steps)
    ensures NoStealing(s, steps)
  {
    if steps != [] {
      var front, step := steps[..|steps| - 1], steps[|steps| - 1];
      NoStealingIfReadsSucceed(s, front);
      ReadFailedSaysSo(s, front, step.n);
      if StealingBind(Run(s, front), step) { FirstStealFollowsFailedRead(s, front, step); }
      forall i | 0 <= i < |steps| ensures !StealingBind(Run(s, steps[..i]), steps[i]) {
        assert i < |front| ==> front[..i] == steps[..i] && front[i] == steps[i];
      }
    }
  }

  /** Over every interleaving with crashes and failures: at every moment at most one live node acts
      as the owner if and only if no take-over binds the job while another one does.  A take-over
      never does so when the reads made under the lock succeed. */
  lemma SingleLiveOwner(s: State, steps: seq<Step>)
    requires Initial(s)
    ensures SingleOwnerThroughout(s, steps) <==> NoStealing(s, steps)
    ensures LockedReadsSucceed(steps) ==> NoStealing(s, steps)
  {
    if NoStealing(s, steps) {
      forall k | 0 <= k <= |steps| ensures SingleOwner(Run(s, steps[..k])) {
        OwnersRecordedThroughout(s, steps, k);
      }
    } else {
      var i :| 0 <= i < |steps| && StealingBind(Run(s, steps[..i]), steps[i]);
      StealingBreaksRun(s, steps, i);
    }
    if LockedReadsSucceed(steps) { NoStealingIfReadsSucceed(s, steps); }
  }

  // ----- Offsets -----

  /** A take-over is about to write back an offset that is no longer the stored one. */
  predicate StaleBind(s: State, step: Step) {
    step.Bind? && Alive(s, step.n) && PcOf(s, step.n).Binding? && PcOf(s, step.n).offset != s.offset
  }

  /** A run is about to commit an interval that does not start at the stored offset. */
  predicate StaleCommit(s: State, step: Step) {
    step.Commit? && Alive(s, step.n) && PcOf(s, step.n).Working? && PcOf(s, step.n).offset != s.offset
  }

  /** A bind or a commit is about to write an offset below the stored one. */
  predicate WritesLower(s: State, step: Step) {
    var pc := PcOf(s, step.n);
    Alive(s, step.n) && ((step.Bind? && pc.Binding? && pc.offset < s.offset) ||
                         (step.Commit? && pc.Working? && pc.latest < s.offset))
  }

  /** The stored offset goes down exactly at such a write.  While the locked reads succeed that is
      exactly a stale bind, and then the previous owner committed after it was read and has crashed
      since. */
  lemma OffsetDropsIff(s: State, step: Step)
    ensures Apply(s, step).offset < s.offset <==> WritesLower(s, step)
    ensures Inv(s) && Apply(s, step).offset > s.offset ==> step.Commit?
    ensures Inv(s) ==> (WritesLower(s, step) <==> StaleBind(s, step))
    ensures Inv(s) && StaleBind(s, step) ==> s.owner.Some? && s.owner.value != step.n && !Alive(s, s.owner.value)
  {
    if Inv(s) && Alive(s, step.n) {
      assert NodeInv(s, step.n);
    }
  }

  ghost function Reach(start: int, commits: seq<(int, int)>): int {
    if commits == [] then start
    else
      var before := Reach(start, commits[..|commits| - 1]);
      var latest := commits[|commits| - 1].1;
      if latest > before then latest else before
  }

  /** Each committed interval starts at or below everything already covered. */
  ghost predicate NoGap(start: int, commits: seq<(int, int)>) {
    forall i :: 0 <= i < |commits| ==> commits[i].0 <= Reach(start, commits[..i]) && commits[i].0 < commits[i].1
  }

  /** Each committed interval starts exactly where the one before it ended. */
  ghost predicate Tiles(start: int, commits: seq<(int, int)>, end: int) {
    && (forall i :: 0 <= i < |commits| ==> commits[i].0 < commits[i].1)
    && (forall i :: 0 <= i < |commits| ==> commits[i].0 == EndBefore(start, commits, i))
    && end == EndBefore(start, commits, |commits|)
  }

  function EndBefore(start: int, commits: seq<(int, int)>, i: nat): int
    requires i <= |commits|
  {
    if i == 0 then start else commits[i - 1].1
  }

  /** The offset that a node carries, if any, is covered, and a working node has something to do. */
  predicate CarriesCovered(pc: Pc, reach: int) {
    && (pc.Read? || pc.LockRead? || pc.Binding? || pc.Bound? || pc.Past? || pc.Working? ==> pc.offset <= reach)
    && (pc.Working? ==> pc.offset < pc.latest)
  }

  ghost predicate Covered(start: int, s: State) {
    && 0 <= Reach(start, s.commits) && s.offset <= Reach(start, s.commits)
    && forall n: Node :: CarriesCovered(PcOf(s, n), Reach(start, s.commits))
  }

  lemma NoGapSnoc(start: int, commits: seq<(int, int)>, a: int, b: int)
    requires NoGap(start, commits) && a <= Reach(start, commits) && a < b
    ensures NoGap(start, commits + [(a, b)])
    ensures Reach(start, commits + [(a, b)]) == if b > Reach(start, commits) then b else Reach(start, commits)
  {
    var more := commits + [(a, b)];
    assert more[..|commits|] == commits;
    forall i | 0 <= i < |more| ensures more[i].0 <= Reach(start, more[..i]) && more[i].0 < more[i].1 {
      assert more[..i] == commits[..i];
      assert i == |commits| ==> commits[..i] == commits;
      assert i < |commits| ==> more[i] == commits[i];
    }
  }

  /** A step commits the interval that a working node carries, or no more than rewrites the offset. */
  lemma WriteEffect(s: State, step: Step)
    ensures var s', pc := Apply(s, step), PcOf(s, step.n);
            || (s'.commits == s.commits && (s'.offset == s.offset || (pc.Binding? && s'.offset == pc.offset)))
            || (pc.Working? && s'.commits == s.commits + [(pc.offset, pc.latest)] && s'.offset == pc.latest)
  {
  }

  lemma StepKeepsNoGap(start: int, s: State, s': State, pc: Pc)
    requires NoGap(start, s.commits) && s.offset <= Reach(start, s.commits)
    requires CarriesCovered(pc, Reach(start, s.commits))
    requires || (s'.commits == s.commits && (s'.offset == s.offset || (pc.Binding? && s'.offset == pc.offset)))
             || (pc.Working? && s'.commits == s.commits + [(pc.offset, pc.latest)] && s'.offset == pc.latest)
    ensures NoGap(start, s'.commits)
    ensures Reach(start, s.commits) <= Reach(start, s'.commits) && s'.offset <= Reach(start, s'.commits)
  {
    if s'.commits != s.commits {
      NoGapSnoc(start, s.commits, pc.offset, pc.latest);
    }
  }

  lemma StepCarries(s: State, step: Step, n: Node, reach: int, reach': int)
    requires 0 <= reach <= reach' && s.offset <= reach && CarriesCovered(PcOf(s, n), reach)
    ensures CarriesCovered(PcOf(Apply(s, step), n), reach')
  {
  }

  lemma StepKeepsCovered(start: int, s: State, step: Step)
    requires Covered(start, s) && NoGap(start, s.commits)
    ensures Covered(start, Apply(s, step)) && NoGap(start, Apply(s, step).commits)
  {
    WriteEffect(s, step);
    StepKeepsNoGap(start, s, Apply(s, step), PcOf(s, step.n));
    forall n: Node ensures CarriesCovered(PcOf(Apply(s, step), n), Reach(start, Apply(s, step).commits)) {
      StepCarries(s, step, n, Reach(start, s.commits), Reach(start, Apply(s, step).commits));
    }
  }

  lemma {:induction false} RunKeepsCovered(s: State, steps: seq<Step>)
    requires Initial(s) && s.offset >= 0
    ensures Covered(s.offset, Run(s, steps)) && NoGap(s.offset, Run(s, steps).commits)
  {
    if steps != [] {
      RunKeepsCovered(s, steps[..|steps| - 1]);
      StepKeepsCovered(s.offset, Run(s, steps[..|steps| - 1]), steps[|steps| - 1]);
    }
  }

  /** No update is ever skipped: the committed intervals have no gap, in every run, whatever fails. */
  lemma CommitsHaveNoGap(s: State, steps: seq<Step>)
    requires Initial(s) && s.offset >= 0
    ensures var e := Run(s, steps);
            NoGap(s.offset, e.commits) && e.offset <= Reach(s.offset, e.commits)
  {
    RunKeepsCovered(s, steps);
  }

  ghost predicate NoStaleBind(s: State, steps: seq<Step>) {
    forall i :: 0 <= i < |steps| ==> !StaleBind(Run(s, steps[..i]), steps[i])
  }

  lemma StepEffect(s: State, step: Step)
    requires Inv(s) && !step.LockedReadFails? && !StaleBind(s, step)
    ensures var s' := Apply(s, step);
            (s'.commits == s.commits && s'.offset == s.offset) ||
            (s'.commits == s.commits + [(s.offset, s'.offset)] && s.offset < s'.offset)
  {
    if Alive(s, step.n) {
      assert NodeInv(s, step.n);
    }
  }

  lemma StepKeepsTiles(start: int, s: State, step: Step)
    requires Inv(s) && !step.LockedReadFails? && !StaleBind(s, step)
    requires Tiles(start, s.commits, s.offset)
    ensures Tiles(start, Apply(s, step).commits, Apply(s, step).offset)
  {
    StepEffect(s, step);
    var s' := Apply(s, step);
    if s'.commits != s.commits {
      TilesSnoc(start, s.commits, s.offset, s'.offset);
    }
  }

  lemma TilesSnoc(start: int, commits: seq<(int, int)>, a: int, b: int)
    requires Tiles(start, commits, a) && a < b
    ensures Tiles(start, commits + [(a, b)], b)
  {
    var more := commits + [(a, b)];
    forall i | 0 <= i < |more| ensures more[i].0 < more[i].1 && more[i].0 == EndBefore(start, more, i) {
      assert EndBefore(start, more, i) == EndBefore(start, commits, i);
      assert more[i] == if i < |commits| then commits[i] else (a, b);
    }
  }

  /** Without a stale bind the committed intervals tile the timeline: no gap and no overlap. */
  lemma {:induction false} CommitsTile(s: State, steps: seq<Step>)
    requires Initial(s) && LockedReadsSucceed(steps) && NoStaleBind(s, steps)
    ensures Tiles(s.offset, Run(s, steps).commits, Run(s, steps).offset)
  {
    if steps != [] {
      var front, last := steps[..|steps| - 1], steps[|steps| - 1];
      forall i | 0 <= i < |front| ensures !StaleBind(Run(s, front[..i]), front[i]) {
        assert front[..i] == steps[..i];
      }
      CommitsTile(s, front);
      RunKeepsInv(s, front);
      assert !StaleBind(Run(s, steps[..|front|]), last);
      StepKeepsTiles(s.offset, Run(s, front), last);
      assert Run(s, steps) == Apply(Run(s, front), last);
    }
  }

  /** Some committed interval does not start where the one before it ended, or the next one will not. */
  ghost predicate Broken(start: int, commits: seq<(int, int)>, offset: int) {
    (exists i :: 0 <= i < |commits| && Misplaced(start, commits, i)) || offset < EndBefore(start, commits, |commits|)
  }

  predicate Misplaced(start: int, commits: seq<(int, int)>, i: nat)
    requires i < |commits|
  {
    commits[i].0 != EndBefore(start, commits, i)
  }

  lemma BrokenSnoc(start: int, commits: seq<(int, int)>, a: int, b: int)
    requires Broken(start, commits, a)
    ensures Broken(start, commits + [(a, b)], b)
  {
    var more := commits + [(a, b)];
    if i :| 0 <= i < |commits| && Misplaced(start, commits, i) {
      assert Misplaced(start, more, i);
    } else {
      assert Misplaced(start, more, |commits|);
    }
  }

  /** What a step does to the commits, stale or not. */
  lemma AnyStepEffect(s: State, step: Step)
    requires Inv(s) && !step.LockedReadFails?
    ensures var s' := Apply(s, step);
            (s'.commits == s.commits && s'.offset <= s.offset) || s'.commits == s.commits + [(s.offset, s'.offset)]
  {
    if Alive(s, step.n) {
      assert NodeInv(s, step.n);
    }
  }

  lemma BrokenStays(start: int, s: State, step: Step)
    requires Inv(s) && !step.LockedReadFails? && Broken(start, s.commits, s.offset)
    ensures Broken(start, Apply(s, step).commits, Apply(s, step).offset)
  {
    var s' := Apply(s, step);
    AnyStepEffect(s, step);
    if s'.commits != s.commits {
      BrokenSnoc(start, s.commits, s.offset, s'.offset);
    }
  }

  lemma StaleBindBreaks(start: int, s: State, step: Step)
    requires Inv(s) && StaleBind(s, step) && Tiles(start, s.commits, s.offset)
    ensures Broken(start, Apply(s, step).commits, Apply(s, step).offset)
  {
    OffsetDropsIff(s, step);
  }

  lemma NoStaleBindSnoc(s: State, steps: seq<Step>)
    requires steps != []
    ensures var front := steps[..|steps| - 1];
            NoStaleBind(s, front) && !StaleBind(Run(s, front), steps[|steps| - 1]) ==> NoStaleBind(s, steps)
  {
    var front := steps[..|steps| - 1];
    if NoStaleBind(s, front) && !StaleBind(Run(s, front), steps[|steps| - 1]) {
      forall i | 0 <= i < |steps| ensures !StaleBind(Run(s, steps[..i]), steps[i]) {
        if i < |front| {
          assert front[..i] == steps[..i] && !StaleBind(Run(s, front[..i]), front[i]);
        }
      }
    }
  }

  lemma {:induction false} StaleBindBreaksRun(s: State, steps: seq<Step>)
    requires Initial(s) && LockedReadsSucceed(steps) && !NoStaleBind(s, steps)
    ensures Broken(s.offset, Run(s, steps).commits, Run(s, steps).offset)
  {
    var front, last := steps[..|steps| - 1], steps[|steps| - 1];
    RunKeepsInv(s, front);
    if NoStaleBind(s, front) {
      CommitsTile(s, front);
      NoStaleBindSnoc(s, steps);
      StaleBindBreaks(s.offset, Run(s, front), last);
    } else {
      StaleBindBreaksRun(s, front);
      BrokenStays(s.offset, Run(s, front), last);
    }
  }

  predicate StaleWrite(s: State, step: Step) {
    StaleBind(s, step) || StaleCommit(s, step)
  }

  ghost predicate NoStaleWrite(s: State, steps: seq<Step>) {
    forall i :: 0 <= i < |steps| ==> !StaleWrite(Run(s, steps[..i]), steps[i])
  }

  ghost predicate TilesThroughout(s: State, steps: seq<Step>) {
    forall k :: 0 <= k <= |steps| ==> Tiles(s.offset, Run(s, steps[..k]).commits, Run(s, steps[..k]).offset)
  }

  /** A working node has something to do. */
  ghost predicate WorkToDo(s: State) {
    forall n: Node :: PcOf(s, n).Working? ==> PcOf(s, n).offset < PcOf(s, n).latest
  }

  lemma {:induction false} RunKeepsWorkToDo(s: State, steps: seq<Step>)
    requires Initial(s)
    ensures WorkToDo(Run(s, steps))
  {
    if steps != [] {
      RunKeepsWorkToDo(s, steps[..|steps| - 1]);
      StepKeepsWorkToDo(Run(s, steps[..|steps| - 1]), steps[|steps| - 1]);
    }
  }

  lemma StepKeepsWorkToDo(s: State, step: Step)
    requires WorkToDo(s)
    ensures WorkToDo(Apply(s, step))
  {
    forall n: Node | PcOf(Apply(s, step), n).Working?
      ensures PcOf(Apply(s, step), n).offset < PcOf(Apply(s, step), n).latest
    {
      assert PcOf(s, n).Working? ==> PcOf(s, n).offset < PcOf(s, n).latest;
    }
  }

  /** One step from a tiled timeline keeps it tiled exactly when the step is no stale write. */
  lemma StepTilesIff(start: int, s: State, step: Step)
    requires WorkToDo(s) && Tiles(start, s.commits, s.offset)
    ensures Tiles(start, Apply(s, step).commits, Apply(s, step).offset) <==> !StaleWrite(s, step)
  {
    var s', pc := Apply(s, step), PcOf(s, step.n);
    if s'.commits != s.commits {
      assert s'.commits == s.commits + [(pc.offset, pc.latest)];
      if pc.offset == s.offset {
        TilesSnoc(start, s.commits, s.offset, s'.offset);
      } else {
        assert EndBefore(start, s'.commits, |s.commits|) == EndBefore(start, s.commits, |s.commits|);
        assert s'.commits[|s.commits|].0 == pc.offset;
      }
    }
  }

  lemma {:induction false} NoStaleWriteTiles(s: State, steps: seq<Step>, k: nat)
    requires Initial(s) && NoStaleWrite(s, steps) && k <= |steps|
    ensures Tiles(s.offset, Run(s, steps[..k]).commits, Run(s, steps[..k]).offset)
  {
    if k > 0 {
      NoStaleWriteTiles(s, steps, k - 1);
      assert steps[..k][..k - 1] == steps[..k - 1];
      RunKeepsWorkToDo(s, steps[..k - 1]);
      StepTilesIff(s.offset, Run(s, steps[..k - 1]), steps[k - 1]);
    }
  }

  lemma StaleWriteBreaks(s: State, steps: seq<Step>, i: nat)
    requires Initial(s) && i < |steps| && StaleWrite(Run(s, steps[..i]), steps[i])
    ensures !TilesThroughout(s, steps)
  {
    assert steps[..i + 1][..i] == steps[..i];
    RunKeepsWorkToDo(s, steps[..i]);
    if Tiles(s.offset, Run(s, steps[..i]).commits, Run(s, steps[..i]).offset) {
      StepTilesIff(s.offset, Run(s, steps[..i]), steps[i]);
      assert !Tiles(s.offset, Run(s, steps[..i + 1]).commits, Run(s, steps[..i + 1]).offset);
    }
  }

  /** In every run the committed intervals tile the timeline throughout if and only if nothing is
      written over an offset other than the one it started from.  When the locked reads succeed, a
      commit never is, and the intervals tile at the end exactly when no bind was stale. */
  lemma CommitsTileIff(s: State, steps: seq<Step>)
    requires Initial(s)
    ensures TilesThroughout(s, steps) <==> NoStaleWrite(s, steps)
    ensures LockedReadsSucceed(steps) ==>
            (Tiles(s.offset, Run(s, steps).commits, Run(s, steps).offset) <==> NoStaleBind(s, steps))
  {
    if NoStaleWrite(s, steps) {
      forall k | 0 <= k <= |steps| ensures Tiles(s.offset, Run(s, steps[..k]).commits, Run(s, steps[..k]).offset) {
        NoStaleWriteTiles(s, steps, k);
      }
    } else {
      var i :| 0 <= i < |steps| && StaleWrite(Run(s, steps[..i]), steps[i]);
      StaleWriteBreaks(s, steps, i);
    }
    if LockedReadsSucceed(steps) {
      FinalTilesIff(s, steps);
    }
  }

  lemma FinalTilesIff(s: State, steps: seq<Step>)
    requires Initial(s) && LockedReadsSucceed(steps)
    ensures Tiles(s.offset, Run(s, steps).commits, Run(s, steps).offset) <==> NoStaleBind(s, steps)
  {
    if NoStaleBind(s, steps) {
      CommitsTile(s, steps);
    } else {
      StaleBindBreaksRun(s, steps);
    }
  }

  ghost predicate FallsAt(s: State, steps: seq<Step>, i: nat)
    requires i < |steps|
  {
    Run(s, steps[..i + 1]).offset < Run(s, steps[..i]).offset
  }

  ghost predicate NothingLower(s: State, steps: seq<Step>) {
    forall i :: 0 <= i < |steps| ==> !WritesLower(Run(s, steps[..i]), steps[i])
  }

  /** Over a whole run the stored offset never goes down exactly when nothing below it is written,
      which is when no bind is stale if the locked reads succeed. */
  lemma OffsetMonotoneIff(s: State, steps: seq<Step>)
    requires Initial(s)
    ensures (forall i :: 0 <= i < |steps| ==> !FallsAt(s, steps, i)) <==> NothingLower(s, steps)
    ensures LockedReadsSucceed(steps) ==> (NothingLower(s, steps) <==> NoStaleBind(s, steps))
  {
    forall i | 0 <= i < |steps|
      ensures FallsAt(s, steps, i) <==> WritesLower(Run(s, steps[..i]), steps[i])
      ensures LockedReadsSucceed(steps) ==>
              (WritesLower(Run(s, steps[..i]), steps[i]) <==> StaleBind(Run(s, steps[..i]), steps[i]))
    {
      assert steps[..i + 1][..i] == steps[..i];
      if LockedReadsSucceed(steps) { RunKeepsInv(s, steps[..i]); }
      OffsetDropsIff(Run(s, steps[..i]), steps[i]);
    }
  }

  // ----- What the two conditions exclude -----

  /** A run of steps whose locked reads succeed leads from one state to another. */
  ghost predicate Leads(s: State, e: State) {
    exists steps :: LockedReadsSucceed(steps) && Run(s, steps) == e
  }

  lemma LeadsSelf(s: State)
    ensures Leads(s, s)
  {
    assert LockedReadsSucceed([]) && Run(s, []) == s;
  }

  lemma Then(s: State, e: State, step: Step) returns (e': State)
    requires Leads(s, e) && !step.LockedReadFails?
    ensures Leads(s, e') && e' == Apply(e, step)
  {
    var steps :| LockedReadsSucceed(steps) && Run(s, steps) == e;
    var steps' := steps + [step];
    assert steps'[..|steps|] == steps;
    e' := Apply(e, step);
    assert LockedReadsSucceed(steps') && Run(s, steps') == e';
  }

  // ----- Progress -----

  /** A live, idle node reads the latest update and the record. */
  lemma ReadsRecord(s: State, n: Node, latest: int) returns (e: State)
    requires Alive(s, n) && PcOf(s, n) == Idle && latest != 0
    ensures Leads(s, e) && e == Goto(s, n, Read(latest, s.offset, s.owner))
  {
    LeadsSelf(s);
    e := Then(s, s, ReadLatest(n, latest));
    e := Then(s, e, ReadOffset(n));
    assert e.pcs == s.pcs[n := Read(latest, s.offset, s.owner)];
  }

  /** A live node that owns the record commits everything up to the latest update, without the lock. */
  lemma OwnerCommits(s: State, n: Node, latest: int) returns (e: State)
    requires Alive(s, n) && PcOf(s, n) == Idle && s.owner == Some(n) && s.offset < latest && latest != 0
    ensures Leads(s, e) && e.offset == latest && e.owner == Some(n) && e.commits == s.commits + [(s.offset, latest)]
    ensures e.lock == s.lock && PcOf(e, n) == Idle
  {
    e := ReadsRecord(s, n, latest);
    e := Then(s, e, Check(n));
    e := Then(s, e, Decide(n));
    e := Then(s, e, Commit(n));
  }

  /** A live node without a live rival gets the lock when it is free. */
  lemma GetsLock(s: State, n: Node, latest: int) returns (e: State)
    requires Alive(s, n) && PcOf(s, n) == Idle && s.lock.None? && latest != 0
    requires s.owner != Some(n) && !TakenByOther(s, n, s.owner)
    ensures Leads(s, e) && e == Goto(s, n, Locked(latest)).(lock := Some(n))
  {
    e := ReadsRecord(s, n, latest);
    e := Then(s, e, Check(n));
    e := Then(s, e, Lock(n));
    assert e.pcs == s.pcs[n := Locked(latest)];
  }

  /** It binds the record to itself, at the stored offset, and releases the lock. */
  lemma BindsRecord(s0: State, s: State, n: Node, latest: int) returns (e: State)
    requires Leads(s0, s) && Alive(s, n) && PcOf(s, n) == Locked(latest) && !TakenByOther(s, n, s.owner)
    ensures Leads(s0, e) && e == Goto(s, n, Past(latest, s.offset)).(lock := None, owner := Some(n))
  {
    e := Then(s0, s, LockedRead(n));
    e := Then(s0, e, LockedCheck(n));
    e := Then(s0, e, Bind(n));
    e := Then(s0, e, Unlock(n));
    assert e.pcs == s.pcs[n := Past(latest, s.offset)];
  }

  /** So it takes over a record without a live owner and commits from the stored offset on. */
  lemma TakesOver(s: State, n: Node, latest: int) returns (e: State)
    requires Alive(s, n) && PcOf(s, n) == Idle && s.lock.None? && s.offset < latest && latest != 0
    requires s.owner != Some(n) && !TakenByOther(s, n, s.owner)
    ensures Leads(s, e) && e.offset == latest && e.owner == Some(n) && e.commits == s.commits + [(s.offset, latest)]
    ensures e.lock.None? && PcOf(e, n) == Idle
  {
    var locked := GetsLock(s, n, latest);
    e := BindsRecord(s, locked, n, latest);
    e := Then(s, e, Decide(n));
    e := Then(s, e, Commit(n));
  }

  /** A node that finds another live owner, with or without the lock, steps back and leaves the record. */
  lemma StepsBack(s: State, n: Node, owner: Node, latest: int, offset: int)
    requires Alive(s, n) && Alive(s, owner) && owner != n
    ensures PcOf(s, n) == Read(latest, offset, Some(owner)) ==> Apply(s, Check(n)) == Goto(s, n, Idle)
    ensures PcOf(s, n) == LockRead(latest, offset, Some(owner)) ==>
            Apply(s, LockedCheck(n)) == Goto(s, n, Idle).(lock := None)
  {
  }

  /** A call that fails leaves the record alone, and except for a failed read it ends the node's run
      without the lock. */
  lemma FailureEndsRun(s: State, step: Step)
    requires Alive(s, step.n) && (HoldsLock(PcOf(s, step.n)) <==> s.lock == Some(step.n))
    requires step.LockFails? || step.BindFails? || step.UnlockFails? || step.WorkFails? || step.CommitFails? ||
             step.ReadOffsetFails? || step.LockedReadFails?
    ensures var e := Apply(s, step);
            && e.offset == s.offset && e.owner == s.owner && e.commits == s.commits
            && (e != s && !step.ReadOffsetFails? && !step.LockedReadFails? ==>
                PcOf(e, step.n) == Idle && e.lock != Some(step.n))
  {
  }

  // ----- Failing runs -----

  /** Node 1, which owns the record, starts a run. */
  lemma OwnerWorks(s: State) returns (e: State)
    requires s == State(5, Some(1), None, map[], {}, [])
    ensures Leads(s, e) && e == s.(pcs := e.pcs)
    ensures PcOf(e, 1) == Working(20, 5) && PcOf(e, 2) == Idle && PcOf(e, 3) == Idle
  {
    LeadsSelf(s);
    e := Then(s, s, ReadLatest(1, 20));
    e := Then(s, e, ReadOffset(1));
    e := Then(s, e, Check(1));
    e := Then(s, e, Decide(1));
  }

  /** Node 2 misses the owner because its first read fails. */
  lemma OtherMissesOwner(s: State, e0: State) returns (e: State)
    requires Leads(s, e0) && e0.crashed == {} && PcOf(e0, 2) == Idle
    ensures Leads(s, e) && e == Goto(e0, 2, Read(30, 0, None))
  {
    e := Then(s, e0, ReadLatest(2, 30));
    e := Then(s, e, ReadOffsetFails(2));
    assert e.pcs == e0.pcs[2 := Read(30, 0, None)];
  }

  /** It finds no owner and gets the lock. */
  lemma OtherGetsLock(s: State, e0: State) returns (e: State)
    requires Leads(s, e0) && e0.crashed == {} && e0.lock.None? && PcOf(e0, 2) == Read(30, 0, None)
    ensures Leads(s, e) && e == Goto(e0, 2, Locked(30)).(lock := Some(2))
  {
    e := Then(s, e0, Check(2));
    e := Then(s, e, Lock(2));
    assert e.pcs == e0.pcs[2 := Locked(30)];
  }

  lemma OtherLocks(s: State, e0: State) returns (e: State)
    requires Leads(s, e0) && e0 == State(5, Some(1), None, e0.pcs, {}, [])
    requires PcOf(e0, 1) == Working(20, 5) && PcOf(e0, 2) == Idle
    ensures Leads(s, e) && e == e0.(pcs := e.pcs, lock := Some(2))
    ensures PcOf(e, 1) == Working(20, 5) && PcOf(e, 2) == Locked(30) && PcOf(e, 3) == PcOf(e0, 3)
  {
    e := OtherMissesOwner(s, e0);
    e := OtherGetsLock(s, e);
  }

  /** Node 2 reads the record under the lock, and then node 1 commits. */
  lemma OwnerCommitsAfterRead(s: State, e0: State) returns (e: State)
    requires Leads(s, e0) && e0 == State(5, Some(1), Some(2), e0.pcs, {}, [])
    requires PcOf(e0, 1) == Working(20, 5) && PcOf(e0, 2) == Locked(30)
    ensures Leads(s, e) && e == State(20, Some(1), Some(2), e.pcs, {}, [(5, 20)])
    ensures PcOf(e, 2) == LockRead(30, 5, Some(1))
  {
    e := Then(s, e0, LockedRead(2));
    e := Then(s, e, Commit(1));
  }

  /** The condition is needed: the owner commits and crashes between the locked read and the
      liveness check of a take-over, and the offset falls from 20 back to 5. */
  lemma StaleTakeOverExists() returns (s: State, before: State, after: State)
    ensures Initial(s) && Leads(s, before) && Leads(before, after)
    ensures before.offset == 20 && before.commits == [(5, 20)]
    ensures after.offset == 5 && after.commits == [(5, 20)] && after.owner == Some(2)
  {
    s := State(5, Some(1), None, map[], {}, []);
    var e := OwnerWorks(s);
    e := OtherLocks(s, e);
    before := OwnerCommitsAfterRead(s, e);
    after := TakeOverAfterCrash(before);
  }

  lemma TakeOverAfterCrash(s: State) returns (e: State)
    requires s == State(20, Some(1), Some(2), s.pcs, {}, [(5, 20)])
    requires PcOf(s, 2) == LockRead(30, 5, Some(1))
    ensures Leads(s, e) && e.offset == 5 && e.commits == [(5, 20)] && e.owner == Some(2)
  {
    LeadsSelf(s);
    e := Then(s, s, Crash(1));
    e := Then(s, e, LockedCheck(2));
    e := Then(s, e, Bind(2));
  }

  /** A failed read under the lock is taken for "no owner, offset 0": after it the check passes and
      the bind overwrites the record.  The job then has two live owners exactly when another live
      node was past the check, and the offset falls exactly when it was positive. */
  lemma FailedLockedReadStealsJob(s: State, n: Node, latest: int)
    requires Inv(s) && Alive(s, n) && PcOf(s, n) == Locked(latest)
    ensures var e := Apply(Apply(Apply(s, LockedReadFails(n)), LockedCheck(n)), Bind(n));
            && e.owner == Some(n) && e.offset == 0 && Alive(e, n) && PastCheck(PcOf(e, n))
            && (e.offset < s.offset <==> s.offset > 0)
            && forall m: Node :: m != n && Alive(e, m) && PastCheck(PcOf(e, m)) <==>
                                 m != n && Alive(s, m) && PastCheck(PcOf(s, m))
  {
    var a := Apply(s, LockedReadFails(n));
    assert PcOf(a, n) == LockRead(latest, 0, None);
    var b := Apply(a, LockedCheck(n));
    assert PcOf(b, n) == Binding(latest, 0);
  }

  lemma LockedBesideOwner() returns (s: State, steps: seq<Step>)
    ensures Initial(s) && Inv(Run(s, steps)) && LockedReadsSucceed(steps)
    ensures var e := Run(s, steps);
            && e == State(5, Some(1), Some(2), e.pcs, {}, [])
            && PcOf(e, 1) == Working(20, 5) && PcOf(e, 2) == Locked(30) && PcOf(e, 3) == Idle
  {
    s := State(5, Some(1), None, map[], {}, []);
    var e := OwnerWorks(s);
    e := OtherLocks(s, e);
    steps :| LockedReadsSucceed(steps) && Run(s, steps) == e;
    RunKeepsInv(s, steps);
  }

  lemma Steals(s: State, steps: seq<Step>, n: Node) returns (more: seq<Step>)
    ensures Run(s, more) == Apply(Apply(Apply(Run(s, steps), LockedReadFails(n)), LockedCheck(n)), Bind(n))
  {
    more := OneMore(s, steps, LockedReadFails(n));
    more := OneMore(s, more, LockedCheck(n));
    more := OneMore(s, more, Bind(n));
  }

  /** Such a run: node 1 works as the owner, the locked read of node 2 fails, and two live nodes are
      past the ownership check. */
  lemma TwoOwnersExist() returns (s: State, steps: seq<Step>)
    ensures Initial(s)
    ensures var e := Run(s, steps);
            && Alive(e, 1) && PastCheck(PcOf(e, 1)) && Alive(e, 2) && PastCheck(PcOf(e, 2))
            && !SingleOwner(e)
  {
    var before;
    s, before := LockedBesideOwner();
    FailedLockedReadStealsJob(Run(s, before), 2, 30);
    steps := Steals(s, before, 2);
    assert Alive(Run(s, steps), 1) && PastCheck(PcOf(Run(s, steps), 1));
    assert Engaged(Run(s, steps), 1) && Engaged(Run(s, steps), 2);
  }

  lemma OneMore(s: State, steps: seq<Step>, step: Step) returns (more: seq<Step>)
    ensures Run(s, more) == Apply(Run(s, steps), step)
    ensures forall n: Node :: ReadFailed(s, more, n) <==>
              if ReadsUnderLock(Run(s, steps), step, n) then step.LockedReadFails? else ReadFailed(s, steps, n)
  {
    more := steps + [step];
    assert more[..|steps|] == steps;
  }

  /** The read of node 2 under the lock fails, and it is about to bind the job. */
  lemma ThiefReads() returns (s: State, steps: seq<Step>)
    ensures Initial(s) && !ReadFailed(s, steps, 3)
    ensures var e := Run(s, steps);
            && e == State(5, Some(1), Some(2), e.pcs, {}, [])
            && PcOf(e, 1) == Working(20, 5) && PcOf(e, 2) == Binding(30, 0) && PcOf(e, 3) == Idle
  {
    s, steps := LockedBesideOwner();
    ReadFailedSaysSo(s, steps, 3);
    steps := OneMore(s, steps, LockedReadFails(2));
    steps := OneMore(s, steps, LockedCheck(2));
  }

  /** Node 2 steals the job from node 1 and crashes. */
  lemma ThiefCrashes() returns (s: State, steps: seq<Step>)
    ensures Initial(s) && !ReadFailed(s, steps, 3)
    ensures var e := Run(s, steps);
            && e == State(0, Some(2), None, e.pcs, {2}, [])
            && PcOf(e, 1) == Working(20, 5) && PcOf(e, 3) == Idle
  {
    s, steps := ThiefReads();
    steps := OneMore(s, steps, Bind(2));
    steps := OneMore(s, steps, Crash(2));
  }

  lemma ThirdReads() returns (s: State, steps: seq<Step>)
    ensures Initial(s) && !ReadFailed(s, steps, 3)
    ensures var e := Run(s, steps);
            && e == State(0, Some(2), None, e.pcs, {2}, [])
            && PcOf(e, 1) == Working(20, 5) && PcOf(e, 3) == Read(30, 0, Some(2))
  {
    s, steps := ThiefCrashes();
    steps := OneMore(s, steps, ReadLatest(3, 30));
    steps := OneMore(s, steps, ReadOffset(3));
  }

  /** Node 3 finds the crashed owner and gets the lock. */
  lemma ThirdLocks() returns (s: State, steps: seq<Step>)
    ensures Initial(s) && !ReadFailed(s, steps, 3)
    ensures var e := Run(s, steps);
            && e == State(0, Some(2), Some(3), e.pcs, {2}, [])
            && PcOf(e, 1) == Working(20, 5) && PcOf(e, 3) == Locked(30)
  {
    s, steps := ThirdReads();
    steps := OneMore(s, steps, Check(3));
    steps := OneMore(s, steps, Lock(3));
  }

  /** Only the first steal needs a failed read of its own: here node 3 reads the record well and still
      binds the job while node 1 works. */
  lemma LaterStealAfterGoodRead() returns (s: State, steps: seq<Step>)
    ensures Initial(s) && StealingBind(Run(s, steps), Bind(3)) && !ReadFailed(s, steps, 3)
  {
    s, steps := ThirdLocks();
    steps := OneMore(s, steps, LockedRead(3));
    steps := OneMore(s, steps, LockedCheck(3));
    assert Engaged(Run(s, steps), 1);
  }
}
