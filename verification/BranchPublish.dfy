/**
 The publishing protocol of the `qa-assets` branch: any number of calls of
 `pushMainPasses` and `commitOntoBranch`, run by different jobs at once, each
 reading the branch head, building a commit on top of it and asking the server
 for a fast-forward, up to three times.

 The server and the calls form one state machine. A run is a schedule: any
 sequence of (call, action) pairs, so every interleaving of every number of
 calls is some schedule, and a theorem over all schedules is a theorem over all
 runs.
 */
module BranchPublish {
  import opened Prelude

  type Path = string
  type Content = string
  type Tree = map<Path, Content>

  /** A commit's identity: its place in the object store, where nothing is ever rewritten. */
  type Sha = nat

  /**
   What one call publishes. `build` is asked once an attempt and may answer each time
   differently; `None` is a throw.
   */
  datatype Job =
    | Record(path: Path, build: (nat, Option<Content>) -> Option<Content>)
    | Files(files: Tree)

  datatype Commit = Commit(parent: Option<Sha>, tree: Tree, call: nat, attempt: nat)

  /** Where in its loop a call stands, with what it has read so far. */
  datatype Pc =
    | AtHead
    | AtRecord(parent: Option<Sha>)
    | AtBuild(parent: Option<Sha>, current: Option<Content>)
    | AtCommit(parent: Option<Sha>, writes: Tree)
    | AtPush(parent: Option<Sha>, sha: Sha)
    | Returned
    | Threw

  /** `lost` counts the pushes the server accepted whose reply never reached the call. */
  datatype Call = Call(attempt: nat, pc: Pc, lost: nat)

  datatype Sys = Sys(store: seq<Commit>, head: Option<Sha>, calls: seq<Call>)

  /** What may go wrong with one push beside losing the race. */
  datatype Fault =
    | NoFault
    | ReplyLost      // the server decides, the answer never arrives
    | ErrorReply     // any error but 409 and 422; the branch did not move
    | SpuriousRefusal // 409 or 422 although the branch stands where it was read

  datatype Action = ReadHead | ReadRecord | Build | CreateCommit | Push(fault: Fault) | Fail

  // ---------------------------------------------------------------- the store

  ghost predicate WellFormed(store: seq<Commit>) {
    forall k :: 0 <= k < |store| && store[k].parent.Some? ==> store[k].parent.value < k
  }

  ghost predicate InStore(store: seq<Commit>, at: Option<Sha>) {
    at.Some? ==> at.value < |store|
  }

  /** The history of a commit, first commit first. */
  function Chain(store: seq<Commit>, at: Option<Sha>): seq<Sha>
    requires WellFormed(store) && InStore(store, at)
    decreases if at.Some? then at.value + 1 else 0
  {
    if at.None? then [] else Chain(store, store[at.value].parent) + [at.value]
  }

  function TreeAt(store: seq<Commit>, at: Option<Sha>): Tree
    requires InStore(store, at)
  {
    if at.None? then map[] else store[at.value].tree
  }

  function Lookup(tree: Tree, path: Path): Option<Content> {
    if path in tree then Some(tree[path]) else None
  }

  /**
   GitHub's rule: a branch is created only where there is none, and moved only to a
   commit whose history holds its head.
   */
  predicate Accepts(store: seq<Commit>, head: Option<Sha>, parent: Option<Sha>, sha: Sha)
    requires WellFormed(store) && InStore(store, head) && sha < |store|
  {
    if parent.None? then head.None? else head.Some? && head.value in Chain(store, Some(sha))
  }

  // ---------------------------------------------------------------- the calls

  const MAX_ATTEMPTS := 3

  /**
   Where a push that was not answered with success leaves the call: a record is retried
   after a race alone, files after any error.
   */
  function AfterError(job: Job, call: Call, raced: bool): Call {
    if call.attempt == MAX_ATTEMPTS || (job.Record? && !raced) then call.(pc := Threw)
    else call.(attempt := call.attempt + 1, pc := AtHead)
  }

  function StepPush(job: Job, s: Sys, i: nat, fault: Fault): Sys
    requires WellFormed(s.store) && InStore(s.store, s.head)
    requires i < |s.calls| && s.calls[i].pc.AtPush? && s.calls[i].pc.sha < |s.store|
  {
    var call := s.calls[i];
    var accepted := Accepts(s.store, s.head, call.pc.parent, call.pc.sha);
    match fault
    case NoFault =>
      if accepted then s.(head := Some(call.pc.sha), calls := s.calls[i := call.(pc := Returned)])
      else s.(calls := s.calls[i := AfterError(job, call, true)])
    case ReplyLost =>
      if accepted
        then s.(head := Some(call.pc.sha), calls := s.calls[i := AfterError(job, call.(lost := call.lost + 1), false)])
      else s.(calls := s.calls[i := AfterError(job, call, false)])
    case ErrorReply => s.(calls := s.calls[i := AfterError(job, call, false)])
    case SpuriousRefusal => s.(calls := s.calls[i := AfterError(job, call, true)])
  }

  /** The state after call `i` takes one action; an action that is not the call's next one changes nothing. */
  function Step(jobs: seq<Job>, s: Sys, i: nat, action: Action): Sys
    requires |s.calls| == |jobs| && WellFormed(s.store) && InStore(s.store, s.head)
    requires forall j :: 0 <= j < |jobs| ==> PcInStore(s.store, s.calls[j].pc)
  {
    if i >= |jobs| then s else
      var call, job := s.calls[i], jobs[i];
      assert PcInStore(s.store, call.pc);
      match (action, call.pc)
      case (ReadHead, AtHead) =>
        s.(calls := s.calls[i := call.(pc := if job.Record? then AtRecord(s.head) else AtCommit(s.head, job.files))])
      case (ReadRecord, AtRecord(parent)) =>
        if job.Files? then s else
          s.(calls := s.calls[i := call.(pc := AtBuild(parent, Lookup(TreeAt(s.store, parent), job.path)))])
      case (Build, AtBuild(parent, current)) =>
        if job.Files? then s else
          var text := job.build(call.attempt, current);
          s.(calls := s.calls[i := call.(pc := if text.None? then Threw
            else AtCommit(parent, map[job.path := text.value]))])
      case (CreateCommit, AtCommit(parent, writes)) =>
        var commit := Commit(parent, TreeAt(s.store, parent) + writes, i, call.attempt);
        s.(store := s.store + [commit], calls := s.calls[i := call.(pc := AtPush(parent, |s.store|))])
      case (Push(fault), AtPush(_, _)) => StepPush(job, s, i, fault)
      case (Fail, AtHead) => s.(calls := s.calls[i := call.(pc := Threw)])
      case (Fail, AtRecord(_)) => s.(calls := s.calls[i := call.(pc := Threw)])
      case (Fail, AtBuild(_, _)) => s.(calls := s.calls[i := call.(pc := Threw)])
      case (Fail, AtCommit(_, _)) => s.(calls := s.calls[i := call.(pc := Threw)])
      case _ => s
  }

  function ParentOf(pc: Pc): Option<Sha> {
    match pc
    case AtRecord(parent) => parent
    case AtBuild(parent, _) => parent
    case AtCommit(parent, _) => parent
    case AtPush(parent, _) => parent
    case _ => None
  }

  ghost predicate PcInStore(store: seq<Commit>, pc: Pc) {
    InStore(store, ParentOf(pc)) && (pc.AtPush? ==> pc.sha < |store|)
  }

  ghost predicate Initial(jobs: seq<Job>, s: Sys) {
    && |s.calls| == |jobs|
    && WellFormed(s.store) && InStore(s.store, s.head)
    && forall j :: 0 <= j < |jobs| ==> s.calls[j] == Call(1, AtHead, 0)
  }

  // ------------------------------------------------------------ the invariant

  /** What a job makes of the tree it is committed onto. */
  ghost predicate Applies(job: Job, attempt: nat, base: Tree, tree: Tree) {
    match job
    case Record(path, build) =>
      var text := build(attempt, Lookup(base, path));
      text.Some? && tree == base[path := text.value]
    case Files(files) => tree == base + files
  }

  ghost predicate CommitOk(jobs: seq<Job>, store: seq<Commit>, k: nat)
    requires k < |store| && WellFormed(store)
  {
    store[k].call < |jobs| && Applies(jobs[store[k].call], store[k].attempt, TreeAt(store, store[k].parent),
      store[k].tree)
  }

  ghost predicate Known(store: seq<Commit>, history: seq<Sha>) {
    forall k :: 0 <= k < |history| ==> history[k] < |store|
  }

  /** How many commits of `history` a call made. */
  ghost function Landed(store: seq<Commit>, history: seq<Sha>, i: nat): nat
    requires Known(store, history)
  {
    if history == [] then 0
    else Landed(store, history[..|history| - 1], i) + (if store[history[|history| - 1]].call == i then 1 else 0)
  }

  /** What every call holds against the shared branch. */
  ghost predicate CallOk(jobs: seq<Job>, s0: Sys, s: Sys, i: nat)
    requires i < |jobs| == |s.calls| && WellFormed(s.store) && InStore(s.store, s.head)
  {
    var call := s.calls[i];
    && 1 <= call.attempt <= MAX_ATTEMPTS
    && InStore(s.store, ParentOf(call.pc))
    && Chain(s.store, ParentOf(call.pc)) <= Chain(s.store, s.head)
    && (jobs[i].Record? && call.lost > 0 ==> call.pc.Threw? && call.lost == 1)
    && match call.pc
       case AtRecord(_) => jobs[i].Record?
       case AtBuild(parent, current) => jobs[i].Record? && current == Lookup(TreeAt(s.store, parent), jobs[i].path)
       case AtCommit(parent, writes) =>
         Applies(jobs[i], call.attempt, TreeAt(s.store, parent), TreeAt(s.store, parent) + writes)
       case AtPush(parent, sha) =>
         && |s0.store| <= sha < |s.store|
         && s.store[sha].parent == parent && s.store[sha].call == i && s.store[sha].attempt == call.attempt
         && sha !in Chain(s.store, s.head)
       case _ => true
  }

  ghost predicate StoreOk(jobs: seq<Job>, s0: Sys, s: Sys) {
    && |s.calls| == |jobs|
    && WellFormed(s0.store) && InStore(s0.store, s0.head)
    && WellFormed(s.store) && InStore(s.store, s.head)
    && s0.store <= s.store
    && (forall k :: |s0.store| <= k < |s.store| ==> CommitOk(jobs, s.store, k))
    && Chain(s0.store, s0.head) <= Chain(s.store, s.head)
    && (forall k :: |Chain(s0.store, s0.head)| <= k < |Chain(s.store, s.head)| ==>
      Chain(s.store, s.head)[k] >= |s0.store|)
  }

  /** The commits the run has put on the branch, in order. */
  ghost function News(s0: Sys, s: Sys): (news: seq<Sha>)
    requires WellFormed(s0.store) && InStore(s0.store, s0.head) && WellFormed(s.store) && InStore(s.store, s.head)
    requires Chain(s0.store, s0.head) <= Chain(s.store, s.head)
    ensures Known(s.store, news)
  {
    ChainBounds(s.store, s.head);
    Chain(s.store, s.head)[|Chain(s0.store, s0.head)|..]
  }

  ghost predicate Inv(jobs: seq<Job>, s0: Sys, s: Sys) {
    && StoreOk(jobs, s0, s)
    && (forall i :: 0 <= i < |jobs| ==> CallOk(jobs, s0, s, i))
    && (forall i :: 0 <= i < |jobs| ==>
          Landed(s.store, News(s0, s), i) == s.calls[i].lost + if s.calls[i].pc.Returned? then 1 else 0)
  }

  // -------------------------------------------------------------- chain facts

  lemma {:induction false} ChainBounds(store: seq<Commit>, at: Option<Sha>)
    requires WellFormed(store) && InStore(store, at)
    ensures forall j :: 0 <= j < |Chain(store, at)| ==> Chain(store, at)[j] <= at.value
    ensures forall i, j :: 0 <= i < j < |Chain(store, at)| ==> Chain(store, at)[i] < Chain(store, at)[j]
    ensures at.Some? ==> |Chain(store, at)| > 0 && Chain(store, at)[|Chain(store, at)| - 1] == at.value
    decreases if at.Some? then at.value + 1 else 0
  {
    if at.Some? {
      ChainBounds(store, store[at.value].parent);
    }
  }

  lemma {:induction false} ChainStable(store: seq<Commit>, more: seq<Commit>, at: Option<Sha>)
    requires WellFormed(store) && WellFormed(more) && store <= more && InStore(store, at)
    ensures Chain(more, at) == Chain(store, at)
    decreases if at.Some? then at.value + 1 else 0
  {
    if at.Some? {
      ChainStable(store, more, store[at.value].parent);
    }
  }

  /**
   Two commits of one history, the shorter a prefix of the longer, are the same commit
   when it is the longer one that is found in the shorter.
   */
  lemma {:induction false} PrefixHoldingHeadIsWhole(store: seq<Commit>, parent: Option<Sha>, head: Option<Sha>)
    requires WellFormed(store) && InStore(store, parent) && InStore(store, head)
    requires Chain(store, parent) <= Chain(store, head)
    requires head.Some? ==> head.value in Chain(store, parent)
    ensures parent == head
  {
    ChainBounds(store, parent);
    ChainBounds(store, head);
    if head.Some? {
      var j :| 0 <= j < |Chain(store, parent)| && Chain(store, parent)[j] == head.value;
      assert Chain(store, head)[j] == head.value;
    }
  }

  lemma {:induction false} LandedAppend(store: seq<Commit>, history: seq<Sha>, sha: Sha, i: nat)
    requires Known(store, history) && sha < |store|
    ensures Landed(store, history + [sha], i) == Landed(store, history, i) + if store[sha].call == i then 1 else 0
  {
    assert (history + [sha])[..|history|] == history;
  }

  lemma {:induction false} LandedStable(store: seq<Commit>, more: seq<Commit>, history: seq<Sha>, i: nat)
    requires store <= more && Known(store, history)
    ensures Landed(more, history, i) == Landed(store, history, i)
    decreases |history|
  {
    if history != [] {
      LandedStable(store, more, history[..|history| - 1], i);
    }
  }

  /** What fails before a push, whatever the attempt, ends its call, adds nothing and leaves the branch alone. */
  lemma {:induction false} FailingEndsTheCall(jobs: seq<Job>, s: Sys, i: nat)
    requires |s.calls| == |jobs| && WellFormed(s.store) && InStore(s.store, s.head)
    requires forall j :: 0 <= j < |jobs| ==> PcInStore(s.store, s.calls[j].pc)
    requires i < |jobs| && !s.calls[i].pc.AtPush? && !s.calls[i].pc.Returned?
    ensures Step(jobs, s, i, Fail) == s.(calls := s.calls[i := s.calls[i].(pc := Threw)])
  {
    assert s.calls[i].pc.Threw? ==> s.calls[i].(pc := Threw) == s.calls[i];
  }

  // -------------------------------------------------- the protocol's key facts

  /**
   A fast-forward on this branch is a compare-and-swap: whatever the other calls
   did meanwhile, the server accepts a call's commit exactly when the branch still
   stands where the call read it.
   */
  lemma {:induction false} FastForwardIsCompareAndSwap(jobs: seq<Job>, s0: Sys, s: Sys, i: nat)
    requires Inv(jobs, s0, s) && i < |jobs| && s.calls[i].pc.AtPush?
    ensures s.calls[i].pc.sha < |s.store|
    ensures Accepts(s.store, s.head, s.calls[i].pc.parent, s.calls[i].pc.sha) <==> s.head == s.calls[i].pc.parent
  {
    assert CallOk(jobs, s0, s, i);
    var parent, sha := s.calls[i].pc.parent, s.calls[i].pc.sha;
    assert Chain(s.store, Some(sha)) == Chain(s.store, parent) + [sha];
    ChainBounds(s.store, s.head);
    ChainBounds(s.store, parent);
    if parent.Some? && Accepts(s.store, s.head, parent, sha) {
      assert s.head.value in Chain(s.store, parent);
      PrefixHoldingHeadIsWhole(s.store, parent, s.head);
    }
  }

  lemma {:induction false} InvInStore(jobs: seq<Job>, s0: Sys, s: Sys)
    requires Inv(jobs, s0, s)
    ensures forall j :: 0 <= j < |jobs| ==> PcInStore(s.store, s.calls[j].pc)
  {
    forall j | 0 <= j < |jobs| ensures PcInStore(s.store, s.calls[j].pc) {
      assert CallOk(jobs, s0, s, j);
    }
  }

  lemma {:induction false} StepStaysLocal(jobs: seq<Job>, s0: Sys, s: Sys, s': Sys, i: nat)
    requires Inv(jobs, s0, s) && i < |jobs|
    requires s'.store == s.store && s'.head == s.head
    requires |s'.calls| == |jobs| && s'.calls == s.calls[i := s'.calls[i]]
    requires CallOk(jobs, s0, s', i)
    requires s'.calls[i].lost == s.calls[i].lost && !s'.calls[i].pc.Returned? && !s.calls[i].pc.Returned?
    ensures Inv(jobs, s0, s')
  {
    forall j | 0 <= j < |jobs| ensures CallOk(jobs, s0, s', j) {
      assert CallOk(jobs, s0, s, j);
    }
  }

  /** What a call holds against the branch survives a commit being stored by another call. */
  lemma {:induction false} CallSurvivesNewCommit(jobs: seq<Job>, s0: Sys, s: Sys, s': Sys, j: nat)
    requires j < |jobs| == |s.calls| == |s'.calls| && s'.calls[j] == s.calls[j]
    requires WellFormed(s.store) && InStore(s.store, s.head) && CallOk(jobs, s0, s, j)
    requires WellFormed(s'.store) && s.store <= s'.store && s'.head == s.head
    ensures CallOk(jobs, s0, s', j)
  {
    ChainStable(s.store, s'.store, s.head);
    ChainStable(s.store, s'.store, ParentOf(s.calls[j].pc));
  }

  lemma {:induction false} CreatedCallOk(jobs: seq<Job>, s0: Sys, s: Sys, i: nat)
    requires Inv(jobs, s0, s) && i < |jobs| && s.calls[i].pc.AtCommit?
    requires forall j :: 0 <= j < |jobs| ==> PcInStore(s.store, s.calls[j].pc)
    ensures var s' := Step(jobs, s, i, CreateCommit);
      WellFormed(s'.store) && CallOk(jobs, s0, s', i) && CommitOk(jobs, s'.store, |s.store|)
  {
    var s' := Step(jobs, s, i, CreateCommit);
    assert CallOk(jobs, s0, s, i);
    ChainStable(s.store, s'.store, s.head);
    ChainStable(s.store, s'.store, s.calls[i].pc.parent);
    ChainBounds(s.store, s.head);
  }

  lemma {:induction false} StoreSurvivesNewCommit(jobs: seq<Job>, s0: Sys, s: Sys, s': Sys)
    requires StoreOk(jobs, s0, s)
    requires |s'.calls| == |jobs| && WellFormed(s'.store) && s'.head == s.head
    requires |s'.store| == |s.store| + 1 && s.store <= s'.store && CommitOk(jobs, s'.store, |s.store|)
    ensures StoreOk(jobs, s0, s') && News(s0, s') == News(s0, s)
  {
    ChainStable(s.store, s'.store, s.head);
    forall k | |s0.store| <= k < |s'.store| ensures CommitOk(jobs, s'.store, k) {
      if k < |s.store| {
        assert CommitOk(jobs, s.store, k);
      }
    }
  }

  lemma {:induction false} CreateKeepsInv(jobs: seq<Job>, s0: Sys, s: Sys, i: nat)
    requires Inv(jobs, s0, s) && i < |jobs| && s.calls[i].pc.AtCommit?
    requires forall j :: 0 <= j < |jobs| ==> PcInStore(s.store, s.calls[j].pc)
    ensures Inv(jobs, s0, Step(jobs, s, i, CreateCommit))
  {
    var s' := Step(jobs, s, i, CreateCommit);
    CreatedCallOk(jobs, s0, s, i);
    StoreSurvivesNewCommit(jobs, s0, s, s');
    forall j | 0 <= j < |jobs| ensures CallOk(jobs, s0, s', j) {
      if j != i {
        assert CallOk(jobs, s0, s, j);
        CallSurvivesNewCommit(jobs, s0, s, s', j);
      }
    }
    forall j | 0 <= j < |jobs|
      ensures Landed(s'.store, News(s0, s'), j) == s'.calls[j].lost + if s'.calls[j].pc.Returned? then 1 else 0
    {
      LandedStable(s.store, s'.store, News(s0, s), j);
    }
  }

  /** Where a call stands once its commit is on the branch. */
  ghost predicate AfterLanding(job: Job, before: Call, after: Call) {
    || after == before.(pc := Returned)
    || after == AfterError(job, before.(lost := before.lost + 1), false)
  }

  lemma {:induction false} CallSurvivesLanding(jobs: seq<Job>, s0: Sys, s: Sys, s': Sys, i: nat, j: nat)
    requires i < |jobs| == |s.calls| == |s'.calls| && j < |jobs| && j != i && s'.calls[j] == s.calls[j]
    requires WellFormed(s.store) && InStore(s.store, s.head) && CallOk(jobs, s0, s, i) && CallOk(jobs, s0, s, j)
    requires s.calls[i].pc.AtPush? && s'.store == s.store && s'.head == Some(s.calls[i].pc.sha)
    requires Chain(s'.store, s'.head) == Chain(s.store, s.head) + [s.calls[i].pc.sha]
    ensures CallOk(jobs, s0, s', j)
  {
  }

  /** An accepted push grows the branch by exactly the commit pushed, whether or not the reply arrives. */
  lemma {:induction false} LandingGrowsBranch(jobs: seq<Job>, s0: Sys, s: Sys, s': Sys, i: nat)
    requires Inv(jobs, s0, s) && i < |jobs| && s.calls[i].pc.AtPush? && s.head == s.calls[i].pc.parent
    requires |s'.calls| == |jobs| && s'.store == s.store && s'.head == Some(s.calls[i].pc.sha)
    ensures StoreOk(jobs, s0, s')
    ensures Chain(s'.store, s'.head) == Chain(s.store, s.head) + [s.calls[i].pc.sha]
    ensures News(s0, s') == News(s0, s) + [s.calls[i].pc.sha]
  {
    assert CallOk(jobs, s0, s, i);
  }

  lemma {:induction false} ActingCallLands(jobs: seq<Job>, s0: Sys, s: Sys, s': Sys, i: nat)
    requires i < |jobs| == |s.calls| == |s'.calls| && WellFormed(s.store) && InStore(s.store, s.head)
    requires WellFormed(s'.store) && InStore(s'.store, s'.head)
    requires CallOk(jobs, s0, s, i) && s.calls[i].pc.AtPush? && AfterLanding(jobs[i], s.calls[i], s'.calls[i])
    ensures CallOk(jobs, s0, s', i)
    ensures s'.calls[i].lost + (if s'.calls[i].pc.Returned? then 1 else 0) == s.calls[i].lost + 1
  {
    assert Chain(s'.store, None) == [];
  }

  lemma {:induction false} LandedCounts(jobs: seq<Job>, s0: Sys, s: Sys, s': Sys, i: nat, j: nat)
    requires StoreOk(jobs, s0, s) && StoreOk(jobs, s0, s') && i < |jobs| && j < |jobs|
    requires s.calls[i].pc.AtPush? && s.calls[i].pc.sha < |s.store| && s.store[s.calls[i].pc.sha].call == i
    requires s'.store == s.store && News(s0, s') == News(s0, s) + [s.calls[i].pc.sha]
    ensures Landed(s'.store, News(s0, s'), j) == Landed(s.store, News(s0, s), j) + if i == j then 1 else 0
  {
    hide Chain, Landed, CommitOk;
    LandedAppend(s.store, News(s0, s), s.calls[i].pc.sha, j);
  }

  lemma {:induction false} PushedIsItsOwn(jobs: seq<Job>, s0: Sys, s: Sys, i: nat)
    requires Inv(jobs, s0, s) && i < |jobs| && s.calls[i].pc.AtPush?
    ensures s.calls[i].pc.sha < |s.store| && s.store[s.calls[i].pc.sha].call == i && CallOk(jobs, s0, s, i)
  {
    assert CallOk(jobs, s0, s, i);
  }

  lemma {:induction false} LandingKeepsInv(jobs: seq<Job>, s0: Sys, s: Sys, s': Sys, i: nat)
    requires Inv(jobs, s0, s) && i < |jobs| && s.calls[i].pc.AtPush? && s.head == s.calls[i].pc.parent
    requires |s'.calls| == |jobs| && s'.calls == s.calls[i := s'.calls[i]]
    requires s'.store == s.store && s'.head == Some(s.calls[i].pc.sha)
    requires AfterLanding(jobs[i], s.calls[i], s'.calls[i])
    ensures Inv(jobs, s0, s')
    ensures Chain(s'.store, s'.head) == Chain(s.store, s.head) + [s.calls[i].pc.sha]
  {
    PushedIsItsOwn(jobs, s0, s, i);
    LandingGrowsBranch(jobs, s0, s, s', i);
    hide Chain, Landed, CallOk, News, CommitOk, AfterLanding;
    ActingCallLands(jobs, s0, s, s', i);
    forall j | 0 <= j < |jobs| ensures CallOk(jobs, s0, s', j) {
      if j != i {
        assert CallOk(jobs, s0, s, j);
        CallSurvivesLanding(jobs, s0, s, s', i, j);
      }
    }
    forall j | 0 <= j < |jobs|
      ensures Landed(s'.store, News(s0, s'), j) == s'.calls[j].lost + if s'.calls[j].pc.Returned? then 1 else 0
    {
      LandedCounts(jobs, s0, s, s', i, j);
    }
  }

  /** What a push makes of the system: its commit lands and the call knows of it or not, or it is an error. */
  lemma {:induction false} PushLandsOrErrs(jobs: seq<Job>, s0: Sys, s: Sys, i: nat, fault: Fault)
    requires Inv(jobs, s0, s) && i < |jobs| && s.calls[i].pc.AtPush? && s.calls[i].pc.sha < |s.store|
    ensures var s' := StepPush(jobs[i], s, i, fault);
      && s'.store == s.store && |s'.calls| == |jobs| && s'.calls == s.calls[i := s'.calls[i]]
      && (if s.head == s.calls[i].pc.parent && (fault.NoFault? || fault.ReplyLost?)
          then s'.head == Some(s.calls[i].pc.sha) && AfterLanding(jobs[i], s.calls[i], s'.calls[i])
          else s'.head == s.head && exists raced :: s'.calls[i] == AfterError(jobs[i], s.calls[i], raced))
  {
    FastForwardIsCompareAndSwap(jobs, s0, s, i);
    hide Accepts, Inv, AfterError;
  }

  lemma {:induction false} ErrorKeepsCallOk(jobs: seq<Job>, s0: Sys, s: Sys, s': Sys, i: nat, raced: bool)
    requires i < |jobs| == |s.calls| == |s'.calls| && WellFormed(s.store) && InStore(s.store, s.head)
    requires s'.store == s.store && s'.head == s.head
    requires CallOk(jobs, s0, s, i) && s.calls[i].pc.AtPush? && s'.calls[i] == AfterError(jobs[i], s.calls[i], raced)
    ensures CallOk(jobs, s0, s', i) && s'.calls[i].lost == s.calls[i].lost && !s'.calls[i].pc.Returned?
  {
    assert Chain(s'.store, None) == [];
  }

  lemma {:induction false} PushKeepsInv(jobs: seq<Job>, s0: Sys, s: Sys, i: nat, fault: Fault)
    requires Inv(jobs, s0, s) && i < |jobs| && s.calls[i].pc.AtPush?
    requires s.calls[i].pc.sha < |s.store|
    ensures Inv(jobs, s0, StepPush(jobs[i], s, i, fault))
    ensures Chain(s.store, s.head) <= Chain(StepPush(jobs[i], s, i, fault).store, StepPush(jobs[i], s, i, fault).head)
  {
    PushedIsItsOwn(jobs, s0, s, i);
    PushLandsOrErrs(jobs, s0, s, i, fault);
    var s' := StepPush(jobs[i], s, i, fault);
    hide Chain, Inv, CallOk, StepPush, AfterLanding, AfterError;
    if s.head == s.calls[i].pc.parent && (fault.NoFault? || fault.ReplyLost?) {
      LandingKeepsInv(jobs, s0, s, s', i);
    } else {
      var raced :| s'.calls[i] == AfterError(jobs[i], s.calls[i], raced);
      ErrorKeepsCallOk(jobs, s0, s, s', i, raced);
      StepStaysLocal(jobs, s0, s, s', i);
    }
  }

  /** Reading and building keep what a call holds: it reads where the branch stands, and keeps what it read. */
  lemma {:induction false} OwnStepKeepsCallOk(jobs: seq<Job>, s0: Sys, s: Sys, i: nat, action: Action)
    requires Inv(jobs, s0, s) && i < |jobs| && !action.Push? && !action.CreateCommit?
    requires forall j :: 0 <= j < |jobs| ==> PcInStore(s.store, s.calls[j].pc)
    requires Step(jobs, s, i, action) != s
    ensures var s' := Step(jobs, s, i, action);
      && s'.store == s.store && s'.head == s.head && |s'.calls| == |jobs| && s'.calls == s.calls[i := s'.calls[i]]
      && s'.calls[i].lost == s.calls[i].lost && !s'.calls[i].pc.Returned? && !s.calls[i].pc.Returned?
      && CallOk(jobs, s0, s', i)
  {
    assert CallOk(jobs, s0, s, i);
    hide StoreOk, Landed;
  }

  lemma {:induction false} StepKeepsInv(jobs: seq<Job>, s0: Sys, s: Sys, i: nat, action: Action)
    requires Inv(jobs, s0, s)
    ensures forall j :: 0 <= j < |jobs| ==> PcInStore(s.store, s.calls[j].pc)
    ensures Inv(jobs, s0, Step(jobs, s, i, action))
    ensures Chain(s.store, s.head) <= Chain(Step(jobs, s, i, action).store, Step(jobs, s, i, action).head)
  {
    InvInStore(jobs, s0, s);
    hide Chain, CallOk, StepPush, Landed, CommitOk, News;
    var s' := Step(jobs, s, i, action);
    if i < |jobs| && s' != s {
      if action.Push? {
        PushKeepsInv(jobs, s0, s, i, action.fault);
      } else if action.CreateCommit? {
        CreateKeepsInv(jobs, s0, s, i);
        ChainStable(s.store, s'.store, s.head);
      } else {
        OwnStepKeepsCallOk(jobs, s0, s, i, action);
        StepStaysLocal(jobs, s0, s, s', i);
      }
    }
  }

  // --------------------------------------------------------------- whole runs

  /** One run: which call acts, and how, from the first action to the last. */
  type Schedule = seq<(nat, Action)>

  ghost function Exec(jobs: seq<Job>, s0: Sys, schedule: Schedule): (s: Sys)
    requires Initial(jobs, s0)
    ensures Inv(jobs, s0, s)
  {
    if schedule == [] then
      assert forall i :: 0 <= i < |jobs| ==> CallOk(jobs, s0, s0, i);
      s0
    else
      var last := schedule[|schedule| - 1];
      var before := Exec(jobs, s0, schedule[..|schedule| - 1]);
      StepKeepsInv(jobs, s0, before, last.0, last.1);
      Step(jobs, before, last.0, last.1)
  }

  lemma {:induction false} ExecSnoc(jobs: seq<Job>, s0: Sys, schedule: Schedule, i: nat, action: Action)
    requires Initial(jobs, s0)
    ensures var s := Exec(jobs, s0, schedule);
      && (forall j :: 0 <= j < |jobs| ==> PcInStore(s.store, s.calls[j].pc))
      && Exec(jobs, s0, schedule + [(i, action)]) == Step(jobs, s, i, action)
  {
    assert (schedule + [(i, action)])[..|schedule|] == schedule;
    StepKeepsInv(jobs, s0, Exec(jobs, s0, schedule), i, action);
  }

  ghost predicate Grows(s: Sys, s': Sys) {
    && WellFormed(s.store) && InStore(s.store, s.head) && WellFormed(s'.store) && InStore(s'.store, s'.head)
    && Chain(s.store, s.head) <= Chain(s'.store, s'.head)
  }

  lemma {:induction false} GrowsTransitively(s: Sys, s': Sys, s'': Sys)
    requires Grows(s, s') && Grows(s', s'')
    ensures Grows(s, s'')
  {
  }

  lemma {:induction false} LastActionGrows(jobs: seq<Job>, s0: Sys, schedule: Schedule)
    requires Initial(jobs, s0) && schedule != []
    ensures Grows(Exec(jobs, s0, schedule[..|schedule| - 1]), Exec(jobs, s0, schedule))
  {
    var last := schedule[|schedule| - 1];
    StepKeepsInv(jobs, s0, Exec(jobs, s0, schedule[..|schedule| - 1]), last.0, last.1);
  }

  /**
   Nothing that was on the branch ever leaves it or changes place: from any moment of a
   run on, the history only grows at its end.
   */
  lemma {:induction false} BranchOnlyGrows(jobs: seq<Job>, s0: Sys, schedule: Schedule, moment: nat)
    requires Initial(jobs, s0) && moment <= |schedule|
    ensures Grows(Exec(jobs, s0, schedule[..moment]), Exec(jobs, s0, schedule))
    decreases |schedule|
  {
    if moment == |schedule| {
      assert schedule[..moment] == schedule;
    } else {
      var before := schedule[..|schedule| - 1];
      assert before[..moment] == schedule[..moment];
      BranchOnlyGrows(jobs, s0, before, moment);
      LastActionGrows(jobs, s0, schedule);
      GrowsTransitively(Exec(jobs, s0, schedule[..moment]), Exec(jobs, s0, before), Exec(jobs, s0, schedule));
    }
  }

  // ------------------------------------------------------------ no lost update

  /** What one landed commit makes of the content a path held before it. */
  ghost function Written(job: Job, attempt: nat, path: Path, before: Option<Content>): Option<Content> {
    match job
    case Record(at, build) => if at == path then build(attempt, before) else before
    case Files(files) => if path in files then Some(files[path]) else before
  }

  ghost predicate Made(jobs: seq<Job>, store: seq<Commit>, history: seq<Sha>)
    requires WellFormed(store)
  {
    forall k :: 0 <= k < |history| ==> history[k] < |store| && CommitOk(jobs, store, history[k])
  }

  /** The jobs behind a history, applied to a path's content one after another in commit order. */
  ghost function Replay(jobs: seq<Job>, store: seq<Commit>, history: seq<Sha>, path: Path,
      start: Option<Content>): Option<Content>
    requires WellFormed(store) && Made(jobs, store, history)
  {
    if history == [] then start
    else
      var commit := store[history[|history| - 1]];
      Written(jobs[commit.call], commit.attempt, path, Replay(jobs, store, history[..|history| - 1], path, start))
  }

  /** A commit turns what its parent held at a path into what its job writes there. */
  lemma {:induction false} CommitWrites(jobs: seq<Job>, store: seq<Commit>, k: nat, path: Path)
    requires WellFormed(store) && k < |store| && CommitOk(jobs, store, k)
    ensures Lookup(store[k].tree, path)
      == Written(jobs[store[k].call], store[k].attempt, path, Lookup(TreeAt(store, store[k].parent), path))
  {
  }

  lemma {:induction false} HeadHoldsReplay(jobs: seq<Job>, store: seq<Commit>, base: Option<Sha>,
      at: Option<Sha>, path: Path)
    requires WellFormed(store) && InStore(store, base) && InStore(store, at)
    requires Chain(store, base) <= Chain(store, at)
    requires Made(jobs, store, Chain(store, at)[|Chain(store, base)|..])
    ensures var news := Chain(store, at)[|Chain(store, base)|..];
      Lookup(TreeAt(store, at), path) == Replay(jobs, store, news, path, Lookup(TreeAt(store, base), path))
    decreases if at.Some? then at.value + 1 else 0
  {
    var chain, kept := Chain(store, at), |Chain(store, base)|;
    var news := chain[kept..];
    if news == [] {
      assert chain == Chain(store, base);
      ChainBounds(store, base);
      ChainBounds(store, at);
    } else {
      var parent := store[at.value].parent;
      assert Chain(store, parent) == chain[..|chain| - 1];
      assert news[|news| - 1] == at.value;
      assert Chain(store, parent)[kept..] == news[..|news| - 1];
      assert Chain(store, base) <= Chain(store, parent);
      HeadHoldsReplay(jobs, store, base, parent, path);
      CommitWrites(jobs, store, at.value, path);
    }
  }

  lemma {:induction false} NewsAreOk(jobs: seq<Job>, s0: Sys, s: Sys)
    requires Inv(jobs, s0, s)
    ensures Made(jobs, s.store, News(s0, s))
    ensures TreeAt(s.store, s0.head) == TreeAt(s0.store, s0.head)
    ensures Chain(s.store, s0.head) == Chain(s0.store, s0.head)
  {
    ChainStable(s0.store, s.store, s0.head);
    ChainBounds(s.store, s.head);
    hide Chain, CallOk, Landed, Applies;
    var chain, kept := Chain(s.store, s.head), |Chain(s0.store, s0.head)|;
    assert News(s0, s) == chain[kept..];
    hide News;
    forall k | 0 <= k < |News(s0, s)| ensures News(s0, s)[k] < |s.store| && CommitOk(jobs, s.store, News(s0, s)[k]) {
      assert News(s0, s)[k] == chain[kept + k];
    }
  }

  /**
   No lost update. After any schedule, every path at the branch head holds what
   the landed calls make of it when they are applied one after another in commit
   order to what it held before the run; and each call landed exactly as often as
   it returned or had the reply to an accepted push lost.
   */
  lemma {:induction false} NoLostUpdate(jobs: seq<Job>, s0: Sys, schedule: Schedule, path: Path)
    requires Initial(jobs, s0)
    ensures var s := Exec(jobs, s0, schedule);
      && Made(jobs, s.store, News(s0, s))
      && Lookup(TreeAt(s.store, s.head), path)
        == Replay(jobs, s.store, News(s0, s), path, Lookup(TreeAt(s0.store, s0.head), path))
    ensures var s := Exec(jobs, s0, schedule);
      forall i :: 0 <= i < |jobs| ==> Landed(s.store, News(s0, s), i) == s.calls[i].lost + if s.calls[i].pc.Returned?
        then 1 else 0
  {
    var s := Exec(jobs, s0, schedule);
    NewsAreOk(jobs, s0, s);
    HeadHoldsReplay(jobs, s.store, s0.head, s.head, path);
  }

  /**
   A call that throws has added no commit exactly when no reply to one of its
   accepted pushes was lost; a record call that landed did so once, whatever its
   caller was told, and one that returned lost no reply.
   */
  lemma {:induction false} ThrowingAddsNothingIffNoReplyWasLost(jobs: seq<Job>, s0: Sys, schedule: Schedule, i: nat)
    requires Initial(jobs, s0) && i < |jobs|
    ensures var s := Exec(jobs, s0, schedule);
      && (s.calls[i].pc.Threw? ==> (Landed(s.store, News(s0, s), i) == 0 <==> s.calls[i].lost == 0))
      && (jobs[i].Record? ==> Landed(s.store, News(s0, s), i) <= 1)
      && (jobs[i].Record? && s.calls[i].pc.Returned? ==> Landed(s.store, News(s0, s), i) == 1 && s.calls[i].lost == 0)
  {
    var s := Exec(jobs, s0, schedule);
    assert CallOk(jobs, s0, s, i);
  }

  /**
   The one way a throwing call does add a commit: wherever a record call is about
   to push onto a branch that has not moved, the server may move it and the answer
   be lost, and then the call throws with its commit landed.
   */
  lemma {:induction false} LostReplyThrowsAfterLanding(jobs: seq<Job>, s0: Sys, s: Sys, i: nat)
    requires Inv(jobs, s0, s) && i < |jobs| && jobs[i].Record?
    requires s.calls[i].pc.AtPush? && PcInStore(s.store, s.calls[i].pc) && s.head == s.calls[i].pc.parent
    ensures var s' := StepPush(jobs[i], s, i, ReplyLost);
      Inv(jobs, s0, s') && s'.calls[i].pc.Threw? && Landed(s'.store, News(s0, s'), i) == 1
  {
    assert CallOk(jobs, s0, s, i);
    FastForwardIsCompareAndSwap(jobs, s0, s, i);
    PushKeepsInv(jobs, s0, s, i, ReplyLost);
  }

  /** A call's own four actions from the start to its first push, nothing else happening. */
  function ToFirstPush(i: nat): Schedule {
    [(i, ReadHead), (i, ReadRecord), (i, Build), (i, CreateCommit)]
  }

  lemma {:induction false} FirstPushIsReached(jobs: seq<Job>, s0: Sys, i: nat)
    requires Initial(jobs, s0) && i < |jobs| && jobs[i].Record?
    requires jobs[i].build(1, Lookup(TreeAt(s0.store, s0.head), jobs[i].path)).Some?
    ensures var s := Exec(jobs, s0, ToFirstPush(i));
      s.calls[i] == Call(1, AtPush(s0.head, |s0.store|), 0) && s.head == s0.head && |s.store| == |s0.store| + 1
  {
    hide Inv, Applies;
    var none: Schedule := [];
    ExecSnoc(jobs, s0, none, i, ReadHead);
    ExecSnoc(jobs, s0, none + [(i, ReadHead)], i, ReadRecord);
    ExecSnoc(jobs, s0, none + [(i, ReadHead)] + [(i, ReadRecord)], i, Build);
    ExecSnoc(jobs, s0, none + [(i, ReadHead)] + [(i, ReadRecord)] + [(i, Build)], i, CreateCommit);
    assert none + [(i, ReadHead)] + [(i, ReadRecord)] + [(i, Build)] + [(i, CreateCommit)] == ToFirstPush(i);
  }

  /** So it happens: a record call whose only trouble is one lost reply throws with its commit landed. */
  lemma {:induction false} OneLostReplyIsEnough(jobs: seq<Job>, s0: Sys, i: nat)
    requires Initial(jobs, s0) && i < |jobs| && jobs[i].Record?
    requires jobs[i].build(1, Lookup(TreeAt(s0.store, s0.head), jobs[i].path)).Some?
    ensures var s := Exec(jobs, s0, ToFirstPush(i) + [(i, Push(ReplyLost))]);
      s.calls[i].pc.Threw? && Landed(s.store, News(s0, s), i) == 1
  {
    hide Inv, Exec;
    FirstPushIsReached(jobs, s0, i);
    ExecSnoc(jobs, s0, ToFirstPush(i), i, Push(ReplyLost));
    LostReplyThrowsAfterLanding(jobs, s0, Exec(jobs, s0, ToFirstPush(i)), i);
  }

  // ------------------------------------------------------ what is tried again

  /** A push the call hears landed: nothing went wrong with it, and the branch stood where it was read. */
  predicate Answered(fault: Fault, unmoved: bool) {
    fault.NoFault? && unmoved
  }

  /** A push the server refused, or said it did, as a lost race. */
  predicate Refused(fault: Fault, unmoved: bool) {
    fault.SpuriousRefusal? || (fault.NoFault? && !unmoved)
  }

  /**
   What a push comes to. The call returns exactly when it hears that it landed; it
   throws exactly when it does not and this was its third attempt, or it publishes a
   record and was not refused as a race; and otherwise it reads the head afresh. The
   branch moves exactly when it stood where the call read it and the server was asked.
   */
  lemma {:induction false} PushComesTo(jobs: seq<Job>, s0: Sys, s: Sys, i: nat, fault: Fault)
    requires Inv(jobs, s0, s) && i < |jobs| && s.calls[i].pc.AtPush? && PcInStore(s.store, s.calls[i].pc)
    ensures var call, s' := s.calls[i], StepPush(jobs[i], s, i, fault);
      var unmoved := s.head == call.pc.parent;
      && (s'.calls[i].pc.Returned? <==> Answered(fault, unmoved))
      && (s'.calls[i].pc.Threw? <==>
            !Answered(fault, unmoved) && (call.attempt == 3 || (jobs[i].Record? && !Refused(fault, unmoved))))
      && (!s'.calls[i].pc.Returned? && !s'.calls[i].pc.Threw? ==>
            s'.calls[i].pc.AtHead? && s'.calls[i].attempt == call.attempt + 1)
      && s'.head == if unmoved && (fault.NoFault? || fault.ReplyLost?) then Some(call.pc.sha) else s.head
  {
    FastForwardIsCompareAndSwap(jobs, s0, s, i);
    hide Accepts, Chain, Inv;
  }

  /** How often a call has pushed. */
  ghost function Pushes(jobs: seq<Job>, s0: Sys, schedule: Schedule, i: nat): nat
    requires Initial(jobs, s0) && i < |jobs|
  {
    if schedule == [] then 0
    else
      var before, last := schedule[..|schedule| - 1], schedule[|schedule| - 1];
      Pushes(jobs, s0, before, i)
        + if last.0 == i && last.1.Push? && Exec(jobs, s0, before).calls[i].pc.AtPush? then 1 else 0
  }

  /** An action that may fail a call at its pushes alone, and a record's at races alone. */
  ghost predicate FailsAtPushesOnly(job: Job, action: Action) {
    && !action.Fail?
    && (job.Record? ==>
      && (forall attempt, current :: job.build(attempt, current).Some?)
      && (action.Push? ==> action.fault.NoFault? || action.fault.SpuriousRefusal?))
  }

  /**
   A call that fails at nothing but its pushes, and where it publishes a record at no
   push but by being refused as a race.
   */
  ghost predicate OnlyPushesFail(jobs: seq<Job>, schedule: Schedule, i: nat)
    requires i < |jobs|
  {
    && (jobs[i].Record? ==> forall attempt, current :: jobs[i].build(attempt, current).Some?)
    && forall k :: 0 <= k < |schedule| && schedule[k].0 == i ==> FailsAtPushesOnly(jobs[i], schedule[k].1)
  }

  /** The pushes a call has made are the attempts it has spent. */
  ghost predicate AttemptsArePushes(call: Call, pushes: nat) {
    match call.pc
    case Threw => pushes == 3
    case Returned => 1 <= pushes <= 3
    case _ => pushes == call.attempt - 1 && call.attempt <= 3
  }

  lemma {:induction false} OtherStepSpendsNothing(jobs: seq<Job>, s0: Sys, s: Sys, i: nat, j: nat, action: Action)
    requires Inv(jobs, s0, s) && i < |jobs| && forall k :: 0 <= k < |jobs| ==> PcInStore(s.store, s.calls[k].pc)
    requires j != i || !(action.Push? && s.calls[i].pc.AtPush?)
    requires j == i ==> !action.Fail?
    requires jobs[i].Record? ==> forall attempt, current :: jobs[i].build(attempt, current).Some?
    ensures var call, now := s.calls[i], Step(jobs, s, j, action).calls[i];
      now.attempt == call.attempt && (now.pc.Threw? <==> call.pc.Threw?) && (now.pc.Returned? <==> call.pc.Returned?)
  {
    assert s.calls[i].pc.AtBuild? ==> CallOk(jobs, s0, s, i);
    hide Chain, Accepts, Inv, StepPush;
    if j != i && j < |jobs| && action.Push? && s.calls[j].pc.AtPush? {
      PushTouchesOne(jobs[j], s, i, j, action.fault);
    }
  }

  lemma {:induction false} PushTouchesOne(job: Job, s: Sys, i: nat, j: nat, fault: Fault)
    requires WellFormed(s.store) && InStore(s.store, s.head) && i < |s.calls| && j < |s.calls| && i != j
    requires s.calls[j].pc.AtPush? && s.calls[j].pc.sha < |s.store|
    ensures |StepPush(job, s, j, fault).calls| == |s.calls| && StepPush(job, s, j, fault).calls[i] == s.calls[i]
  {
    hide Accepts;
  }

  lemma {:induction false} StepSpendsItsPush(jobs: seq<Job>, s0: Sys, s: Sys, i: nat, j: nat, action: Action,
      pushes: nat)
    requires Inv(jobs, s0, s) && i < |jobs| && forall k :: 0 <= k < |jobs| ==> PcInStore(s.store, s.calls[k].pc)
    requires AttemptsArePushes(s.calls[i], pushes) && (j == i ==> FailsAtPushesOnly(jobs[i], action))
    requires jobs[i].Record? ==> forall attempt, current :: jobs[i].build(attempt, current).Some?
    ensures AttemptsArePushes(Step(jobs, s, j, action).calls[i],
      pushes + if j == i && action.Push? && s.calls[i].pc.AtPush? then 1 else 0)
  {
    if j == i && action.Push? && s.calls[i].pc.AtPush? {
      PushComesTo(jobs, s0, s, i, action.fault);
      hide StepPush, Inv, Chain;
    } else {
      OtherStepSpendsNothing(jobs, s0, s, i, j, action);
      hide Step, Inv, Chain;
    }
  }

  lemma {:induction false} AttemptsArePushesAlways(jobs: seq<Job>, s0: Sys, schedule: Schedule, i: nat)
    requires Initial(jobs, s0) && i < |jobs| && OnlyPushesFail(jobs, schedule, i)
    ensures AttemptsArePushes(Exec(jobs, s0, schedule).calls[i], Pushes(jobs, s0, schedule, i))
    decreases |schedule|
  {
    if schedule != [] {
      var n := |schedule| - 1;
      AttemptsArePushesAlways(jobs, s0, schedule[..n], i);
      InvInStore(jobs, s0, Exec(jobs, s0, schedule[..n]));
      hide Step, Inv, AttemptsArePushes, Chain;
      StepSpendsItsPush(jobs, s0, Exec(jobs, s0, schedule[..n]), i, schedule[n].0, schedule[n].1,
        Pushes(jobs, s0, schedule[..n], i));
    }
  }

  /**
   Three attempts and no fewer: whatever the other calls do, a call that fails only at
   its pushes, and a record's only at lost races, throws after its third push and at no
   other.
   */
  lemma {:induction false} ThrowsAtItsThirdPush(jobs: seq<Job>, s0: Sys, schedule: Schedule, i: nat)
    requires Initial(jobs, s0) && i < |jobs| && OnlyPushesFail(jobs, schedule, i)
    ensures var call := Exec(jobs, s0, schedule).calls[i];
      && (call.pc.Threw? ==> Pushes(jobs, s0, schedule, i) == 3)
      && (Pushes(jobs, s0, schedule, i) == 3 ==> call.pc.Threw? || call.pc.Returned?)
  {
    AttemptsArePushesAlways(jobs, s0, schedule, i);
  }

  // ------------------------------------------------------------- files survive

  lemma {:induction false} ReplayKeepsFile(jobs: seq<Job>, store: seq<Commit>, history: seq<Sha>, i: nat,
      path: Path, start: Option<Content>)
    requires WellFormed(store) && Known(store, history) && Made(jobs, store, history)
    requires i < |jobs| && jobs[i].Files? && path in jobs[i].files
    requires forall j :: 0 <= j < |jobs| && j != i ==> !WritesPath(jobs[j], path)
    requires Landed(store, history, i) > 0
    ensures Replay(jobs, store, history, path, start) == Some(jobs[i].files[path])
    decreases |history|
  {
    var n := |history| - 1;
    if store[history[n]].call != i {
      ReplayKeepsFile(jobs, store, history[..n], i, path, start);
    }
  }

  ghost predicate WritesPath(job: Job, path: Path) {
    if job.Record? then job.path == path else path in job.files
  }

  /**
   Every file of every call that returned is at the branch head, whatever was pushed
   after it, when no other call writes its path.
   */
  lemma {:induction false} ReturnedFilesStay(jobs: seq<Job>, s0: Sys, schedule: Schedule, i: nat, path: Path)
    requires Initial(jobs, s0) && i < |jobs| && jobs[i].Files? && path in jobs[i].files
    requires forall j :: 0 <= j < |jobs| && j != i ==> !WritesPath(jobs[j], path)
    requires Exec(jobs, s0, schedule).calls[i].pc.Returned?
    ensures var s := Exec(jobs, s0, schedule);
      Lookup(TreeAt(s.store, s.head), path) == Some(jobs[i].files[path])
  {
    var s := Exec(jobs, s0, schedule);
    NoLostUpdate(jobs, s0, schedule, path);
    ReplayKeepsFile(jobs, s.store, News(s0, s), i, path, Lookup(TreeAt(s0.store, s0.head), path));
  }

  // ------------------------------------------- three attempts are enough for three

  /** A schedule in which nothing goes wrong but the races themselves. */
  ghost predicate FaultFree(schedule: Schedule) {
    forall k :: 0 <= k < |schedule| ==> !schedule[k].1.Fail? && (schedule[k].1.Push? ==> schedule[k].1.fault.NoFault?)
  }

  ghost predicate BuildsNeverThrow(jobs: seq<Job>) {
    forall i, attempt, current :: 0 <= i < |jobs| && jobs[i].Record? ==> jobs[i].build(attempt, current).Some?
  }

  /** Each attempt a call has spent was spent because the branch grew while it was under way. */
  ghost predicate AttemptsArePaidFor(s0: Sys, s: Sys, call: Call)
    requires WellFormed(s0.store) && InStore(s0.store, s0.head) && WellFormed(s.store) && InStore(s.store, s.head)
    requires InStore(s.store, ParentOf(call.pc))
  {
    var old', now := |Chain(s0.store, s0.head)|, |Chain(s.store, s.head)|;
    && call.lost == 0
    && match call.pc
       case AtHead => now >= old' + call.attempt - 1
       case Returned => true
       case Threw => now >= old' + MAX_ATTEMPTS
       case _ => |Chain(s.store, ParentOf(call.pc))| >= old' + call.attempt - 1
  }

  ghost predicate Paid(jobs: seq<Job>, s0: Sys, s: Sys) {
    && Inv(jobs, s0, s)
    && forall i :: 0 <= i < |jobs| ==> PcInStore(s.store, s.calls[i].pc) && AttemptsArePaidFor(s0, s, s.calls[i])
  }

  /** A call that did not act has spent nothing, and the branch it measures itself against did not shrink. */
  lemma {:induction false} WaitingStaysPaid(s0: Sys, s: Sys, s': Sys, call: Call)
    requires WellFormed(s0.store) && InStore(s0.store, s0.head) && Grows(s, s') && s.store <= s'.store
    requires InStore(s.store, ParentOf(call.pc)) && AttemptsArePaidFor(s0, s, call)
    ensures InStore(s'.store, ParentOf(call.pc)) && AttemptsArePaidFor(s0, s', call)
  {
    ChainStable(s.store, s'.store, ParentOf(call.pc));
  }

  lemma {:induction false} ReadIsOnBranch(jobs: seq<Job>, s0: Sys, s: Sys, i: nat)
    requires Inv(jobs, s0, s) && i < |jobs|
    ensures InStore(s.store, ParentOf(s.calls[i].pc)) && s.calls[i].attempt <= MAX_ATTEMPTS
    ensures Chain(s.store, ParentOf(s.calls[i].pc)) <= Chain(s.store, s.head)
  {
    assert CallOk(jobs, s0, s, i);
  }

  lemma {:induction false} PushStaysPaid(jobs: seq<Job>, s0: Sys, s: Sys, i: nat)
    requires Inv(jobs, s0, s) && i < |jobs| && s.calls[i].pc.AtPush?
    requires PcInStore(s.store, s.calls[i].pc)
    requires AttemptsArePaidFor(s0, s, s.calls[i])
    ensures var s' := StepPush(jobs[i], s, i, NoFault);
      && s'.store == s.store && WellFormed(s'.store) && InStore(s'.store, s'.head)
        && InStore(s'.store, ParentOf(s'.calls[i].pc))
      && AttemptsArePaidFor(s0, s', s'.calls[i])
  {
    ReadIsOnBranch(jobs, s0, s, i);
    FastForwardIsCompareAndSwap(jobs, s0, s, i);
    hide Chain, CallOk, Accepts, Landed, News, CommitOk;
    RefusedMeansGrown(s.store, s.calls[i].pc.parent, s.head);
  }

  predicate HoldsParent(pc: Pc) {
    pc.AtRecord? || pc.AtBuild? || pc.AtCommit? || pc.AtPush?
  }

  /** Every other action leaves the branch where it is, and the call with the parent it has just read or still holds. */
  lemma {:induction false} OtherActionKeepsParent(jobs: seq<Job>, s: Sys, i: nat, action: Action)
    requires |s.calls| == |jobs| && WellFormed(s.store) && InStore(s.store, s.head)
    requires i < |jobs| && BuildsNeverThrow(jobs) && !action.Fail? && !action.Push?
    requires forall j :: 0 <= j < |jobs| ==> PcInStore(s.store, s.calls[j].pc)
    requires Step(jobs, s, i, action).calls[i] != s.calls[i]
    ensures var s' := Step(jobs, s, i, action);
      && s'.head == s.head && s.store <= s'.store
      && s'.calls[i].attempt == s.calls[i].attempt && s'.calls[i].lost == s.calls[i].lost && HoldsParent(s'.calls[i].pc)
      && (if s.calls[i].pc.AtHead? then ParentOf(s'.calls[i].pc) == s.head
          else HoldsParent(s.calls[i].pc) && ParentOf(s'.calls[i].pc) == ParentOf(s.calls[i].pc))
  {
    hide Chain;
  }

  lemma {:induction false} OtherActionStaysPaid(jobs: seq<Job>, s0: Sys, s: Sys, i: nat, action: Action)
    requires Inv(jobs, s0, s) && i < |jobs| && BuildsNeverThrow(jobs) && !action.Fail? && !action.Push?
    requires forall j :: 0 <= j < |jobs| ==> PcInStore(s.store, s.calls[j].pc)
    requires PcInStore(s.store, s.calls[i].pc) && AttemptsArePaidFor(s0, s, s.calls[i])
    requires Step(jobs, s, i, action).calls[i] != s.calls[i]
    ensures var s' := Step(jobs, s, i, action);
      && WellFormed(s'.store) && InStore(s'.store, s'.head) && InStore(s'.store, ParentOf(s'.calls[i].pc))
      && AttemptsArePaidFor(s0, s', s'.calls[i])
  {
    StepKeepsInv(jobs, s0, s, i, action);
    var s' := Step(jobs, s, i, action);
    OtherActionKeepsParent(jobs, s, i, action);
    hide Chain, Step, CallOk, Landed, News, CommitOk;
    ChainStable(s.store, s'.store, ParentOf(s.calls[i].pc));
    ChainStable(s.store, s'.store, s.head);
  }

  lemma {:induction false} StepKeepsPaid(jobs: seq<Job>, s0: Sys, s: Sys, i: nat, action: Action)
    requires Paid(jobs, s0, s) && BuildsNeverThrow(jobs)
    requires !action.Fail? && (action.Push? ==> action.fault.NoFault?)
    ensures Paid(jobs, s0, Step(jobs, s, i, action))
  {
    StepKeepsInv(jobs, s0, s, i, action);
    var s' := Step(jobs, s, i, action);
    InvInStore(jobs, s0, s');
    StepTouchesOne(jobs, s, i, action);
    assert Grows(s, s');
    hide Chain, CallOk, Landed, News, CommitOk, AttemptsArePaidFor, Step, Grows;
    forall j | 0 <= j < |jobs| ensures AttemptsArePaidFor(s0, s', s'.calls[j]) {
      if s'.calls[j] == s.calls[j] {
        WaitingStaysPaid(s0, s, s', s.calls[j]);
      } else if action.Push? {
        PushStaysPaid(jobs, s0, s, i);
      } else {
        OtherActionStaysPaid(jobs, s0, s, i, action);
      }
    }
  }

  lemma {:induction false} StepTouchesOne(jobs: seq<Job>, s: Sys, i: nat, action: Action)
    requires |s.calls| == |jobs| && WellFormed(s.store) && InStore(s.store, s.head)
    requires forall j :: 0 <= j < |jobs| ==> PcInStore(s.store, s.calls[j].pc)
    ensures var s' := Step(jobs, s, i, action);
      && s.store <= s'.store && |s'.calls| == |s.calls|
      && (forall j :: 0 <= j < |s.calls| && s'.calls[j] != s.calls[j] ==> j == i)
      && (s' != s && action.Push? ==>
        i < |jobs| && s.calls[i].pc.AtPush? && s' == StepPush(jobs[i], s, i, action.fault))
  {
    hide Chain, Accepts;
  }

  lemma {:induction false} RefusedMeansGrown(store: seq<Commit>, parent: Option<Sha>, head: Option<Sha>)
    requires WellFormed(store) && InStore(store, parent) && InStore(store, head)
    requires Chain(store, parent) <= Chain(store, head)
    ensures parent != head ==> |Chain(store, parent)| < |Chain(store, head)|
  {
    if |Chain(store, parent)| == |Chain(store, head)| {
      assert Chain(store, parent) == Chain(store, head);
      ChainBounds(store, parent);
      ChainBounds(store, head);
    }
  }

  lemma {:induction false} FaultFreeIsPaid(jobs: seq<Job>, s0: Sys, schedule: Schedule)
    requires Initial(jobs, s0) && FaultFree(schedule) && BuildsNeverThrow(jobs)
    ensures Paid(jobs, s0, Exec(jobs, s0, schedule))
    decreases |schedule|
  {
    if schedule == [] {
      assert forall i :: 0 <= i < |jobs| ==> s0.calls[i] == Call(1, AtHead, 0);
    } else {
      var n := |schedule| - 1;
      FaultFreeIsPaid(jobs, s0, schedule[..n]);
      var s := Exec(jobs, s0, schedule[..n]);
      StepKeepsPaid(jobs, s0, s, schedule[n].0, schedule[n].1);
    }
  }

  ghost function LandedByFirst(store: seq<Commit>, history: seq<Sha>, n: nat): nat
    requires Known(store, history)
  {
    if n == 0 then 0 else LandedByFirst(store, history, n - 1) + Landed(store, history, n - 1)
  }

  lemma {:induction false} LandedByFirstDrop(store: seq<Commit>, history: seq<Sha>, n: nat)
    requires Known(store, history) && history != []
    ensures LandedByFirst(store, history, n)
      == LandedByFirst(store, history[..|history| - 1], n) + if store[history[|history| - 1]].call < n then 1 else 0
    decreases n
  {
    if n > 0 {
      LandedByFirstDrop(store, history, n - 1);
    }
  }

  lemma {:induction false} HistoryIsLandedByAll(store: seq<Commit>, history: seq<Sha>, n: nat)
    requires Known(store, history)
    requires forall k :: 0 <= k < |history| ==> store[history[k]].call < n
    ensures LandedByFirst(store, history, n) == |history|
    decreases |history|
  {
    if history == [] {
      NothingLandedInNothing(store, n);
    } else {
      LandedByFirstDrop(store, history, n);
      HistoryIsLandedByAll(store, history[..|history| - 1], n);
    }
  }

  lemma {:induction false} NothingLandedInNothing(store: seq<Commit>, n: nat)
    ensures LandedByFirst(store, [], n) == 0
  {
    if n > 0 {
      NothingLandedInNothing(store, n - 1);
    }
  }

  lemma {:induction false} AtMostOneEach(store: seq<Commit>, history: seq<Sha>, n: nat, idle: nat)
    requires Known(store, history)
    requires forall i :: 0 <= i < n ==> Landed(store, history, i) <= 1
    requires idle < n ==> Landed(store, history, idle) == 0
    ensures LandedByFirst(store, history, n) <= if idle < n then n - 1 else n
    decreases n
  {
    if n > 0 {
      AtMostOneEach(store, history, n - 1, idle);
    }
  }

  /**
   A race is lost only to a call that lands. So where nothing else fails, a call
   that gives up after its three attempts saw three other calls land, and as long
   as at most three calls publish at once none of them ever throws.
   */
  lemma {:induction false} GivingUpNeedsThreeOthers(jobs: seq<Job>, s0: Sys, schedule: Schedule, i: nat)
    requires Initial(jobs, s0) && FaultFree(schedule) && BuildsNeverThrow(jobs) && i < |jobs|
    ensures var s := Exec(jobs, s0, schedule);
      s.calls[i].pc.Threw? ==>
        |News(s0, s)| >= MAX_ATTEMPTS && Landed(s.store, News(s0, s), i) == 0 && |jobs| > MAX_ATTEMPTS
  {
    FaultFreeIsPaid(jobs, s0, schedule);
    var s := Exec(jobs, s0, schedule);
    assert AttemptsArePaidFor(s0, s, s.calls[i]);
    if s.calls[i].pc.Threw? {
      NoLostUpdate(jobs, s0, schedule, "");
      forall j | 0 <= j < |jobs| ensures Landed(s.store, News(s0, s), j) <= 1 {
        assert AttemptsArePaidFor(s0, s, s.calls[j]);
      }
      HistoryIsLandedByAll(s.store, News(s0, s), |jobs|);
      AtMostOneEach(s.store, News(s0, s), |jobs|, i);
    }
  }
}
