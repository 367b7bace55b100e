/** Overlap-exclusive sessions and the queue of dispatches that wait for them
    (backend/dispatch_routing.py). */
module DispatchQueue {
  import opened Common
  import opened DispatchPaths
  import opened Text

  // ---------------------------------------------------------------- sessions and queue

  datatype Session = Session(id: string, repo: string, paths: seq<string>, pr: Option<int>)

  datatype Item = Item(id: string, repo: string, paths: seq<string>, blocker: string)

  datatype State = State(sessions: seq<Session>, queue: seq<Item>)

  predicate SameRepo(a: string, b: string) {
    Lower(Strip(a)) == Lower(Strip(b))
  }

  /** get_active_sessions: an empty repository name asks for all of them. */
  predicate Considered(s: Session, repo: string) {
    repo == "" || SameRepo(s.repo, repo)
  }

  /** The first considered session that overlaps, in order of dispatch. */
  function Blocker(sessions: seq<Session>, repo: string, paths: seq<string>): (r: Option<string>)
    ensures r.None? <==> forall s :: s in sessions ==> !(Considered(s, repo) && Overlap(s.paths, paths))
  {
    if sessions == [] then None
    else if Considered(sessions[0], repo) && Overlap(sessions[0].paths, paths) then Some(sessions[0].id)
    else Blocker(sessions[1..], repo, paths)
  }

  /** Dispatch at once, or wait in the queue. */
  function Dispatch(st: State, repo: string, paths: seq<string>, id: string): State {
    match Blocker(st.sessions, repo, paths)
    case None => st.(sessions := st.sessions + [Session(id, repo, paths, None)])
    case Some(b) => st.(queue := st.queue + [Item(id, repo, paths, b)])
  }

  function Drop(sessions: seq<Session>, id: string): seq<Session> {
    if sessions == [] then []
    else if sessions[0].id == id then sessions[1..]
    else [sessions[0]] + Drop(sessions[1..], id)
  }

  function FindSession(sessions: seq<Session>, id: string): (r: Option<Session>)
    ensures r.Some? ==> r.value in sessions && r.value.id == id
  {
    if sessions == [] then None
    else if sessions[0].id == id then Some(sessions[0])
    else FindSession(sessions[1..], id)
  }

  predicate Wakes(sessions: seq<Session>, repo: string, item: Item) {
    SameRepo(item.repo, repo) && Blocker(sessions, item.repo, item.paths).None?
  }

  function Woken(sessions: seq<Session>, repo: string, queue: seq<Item>): seq<Item> {
    if queue == [] then []
    else
      var init := Woken(sessions, repo, queue[..|queue| - 1]);
      if Wakes(sessions, repo, queue[|queue| - 1]) then init + [queue[|queue| - 1]] else init
  }

  function StillQueued(sessions: seq<Session>, repo: string, queue: seq<Item>): seq<Item> {
    if queue == [] then []
    else
      var init := StillQueued(sessions, repo, queue[..|queue| - 1]);
      if Wakes(sessions, repo, queue[|queue| - 1]) then init else init + [queue[|queue| - 1]]
  }

  function Release(st: State, id: string): (State, seq<Item>) {
    match FindSession(st.sessions, id)
    case None => (st, [])
    case Some(session) =>
      var rest := Drop(st.sessions, id);
      (State(rest, StillQueued(rest, session.repo, st.queue)), Woken(rest, session.repo, st.queue))
  }

  function ReleaseAll(st: State, ids: seq<string>): (State, seq<Item>) {
    if ids == [] then (st, [])
    else
      var (st1, woken1) := ReleaseAll(st, ids[..|ids| - 1]);
      var (st2, woken2) := Release(st1, ids[|ids| - 1]);
      (st2, woken1 + woken2)
  }

  function PrSessions(sessions: seq<Session>, repo: string, pr: int): seq<string> {
    if sessions == [] then []
    else
      (if SameRepo(sessions[0].repo, repo) && sessions[0].pr == Some(pr) then [sessions[0].id] else [])
      + PrSessions(sessions[1..], repo, pr)
  }

  function AttachPr(sessions: seq<Session>, id: string, pr: int): seq<Session> {
    if sessions == [] then []
    else if sessions[0].id == id then [sessions[0].(pr := Some(pr))] + sessions[1..]
    else [sessions[0]] + AttachPr(sessions[1..], id, pr)
  }

  class DispatchQueueManager {
    var sessions: seq<Session>
    var queue: seq<Item>

    constructor ()
      ensures View() == State([], [])
    {
      sessions, queue := [], [];
    }

    ghost function View(): State
      reads this
    {
      State(sessions, queue)
    }

    method CanDispatch(repo: string, paths: seq<string>) returns (blocker: Option<string>)
      ensures blocker == Blocker(sessions, repo, paths)
    {
      for i := 0 to |sessions|
        invariant Blocker(sessions, repo, paths) == Blocker(sessions[i..], repo, paths)
      {
        var overlaps := PathsOverlap(sessions[i].paths, paths);
        if Considered(sessions[i], repo) && overlaps {
          return Some(sessions[i].id);
        }
      }
      return None;
    }

    /** `declared` if given, else the paths found in the prompt; `id` is a fresh identifier. */
    method TryDispatch(repo: string, declared: seq<string>, fromPrompt: seq<string>, id: string) returns (dispatched: bool)
      modifies this
      ensures View() == Dispatch(old(View()), repo, if declared != [] then declared else fromPrompt, id)
      ensures dispatched <==> queue == old(queue)
    {
      var paths := if declared != [] then declared else fromPrompt;
      var blocker := CanDispatch(repo, paths);
      if blocker.None? {
        sessions := sessions + [Session(id, repo, paths, None)];
        return true;
      }
      queue := queue + [Item(id, repo, paths, blocker.value)];
      return false;
    }

    method ReleaseSession(id: string) returns (dequeued: seq<Item>)
      modifies this
      ensures (View(), dequeued) == Release(old(View()), id)
    {
      dequeued := [];
      var session := FindSession(sessions, id);
      if session.None? {
        return;
      }
      sessions := Drop(sessions, id);
      var remaining: seq<Item> := [];
      var repo := session.value.repo;
      for i := 0 to |queue|
        invariant sessions == Drop(old(sessions), id) && queue == old(queue)
        invariant dequeued == Woken(sessions, repo, queue[..i]) && remaining == StillQueued(sessions, repo, queue[..i])
      {
        assert queue[..i + 1][..i] == queue[..i];
        var item := queue[i];
        var blocker := CanDispatch(item.repo, item.paths);
        if SameRepo(item.repo, repo) && blocker.None? {
          dequeued := dequeued + [item];
        } else {
          remaining := remaining + [item];
        }
      }
      assert queue[..|queue|] == queue;
      queue := remaining;
    }

    method OnPrMergedOrClosed(repo: string, pr: int) returns (dequeued: seq<Item>)
      modifies this
      ensures (View(), dequeued) == ReleaseAll(old(View()), PrSessions(old(sessions), repo, pr))
    {
      var ids := PrSessions(sessions, repo, pr);
      dequeued := [];
      for i := 0 to |ids|
        invariant (View(), dequeued) == ReleaseAll(old(View()), ids[..i])
      {
        assert ids[..i + 1][..i] == ids[..i];
        var more := ReleaseSession(ids[i]);
        dequeued := dequeued + more;
      }
      assert ids[..|ids|] == ids;
    }

    method Attach(id: string, pr: int) returns (found: bool)
      modifies this
      ensures View() == State(AttachPr(old(sessions), id, pr), old(queue))
      ensures found <==> FindSession(old(sessions), id).Some?
    {
      found := FindSession(sessions, id).Some?;
      sessions := AttachPr(sessions, id, pr);
    }
  }

  // ---------------------------------------------------------------- invariant

  predicate Blocked(sessions: seq<Session>, item: Item) {
    exists s :: s in sessions && SameRepo(s.repo, item.repo) && Overlap(s.paths, item.paths)
  }

  predicate Exclusive(sessions: seq<Session>) {
    forall i, j | 0 <= i < j < |sessions| ::
      sessions[i].id != sessions[j].id
      && (SameRepo(sessions[i].repo, sessions[j].repo) ==> !Overlap(sessions[i].paths, sessions[j].paths))
  }

  /** No overlap and no lost wakeup: active sessions of one repository do not overlap, and every
      queued dispatch waits for an active session of its repository, whose release looks at it. */
  predicate Good(st: State) {
    Exclusive(st.sessions) && forall item :: item in st.queue ==> Blocked(st.sessions, item)
  }

  /** What runs keep: besides, every queued dispatch names a repository. */
  predicate Inv(st: State) {
    Good(st) && forall item :: item in st.queue ==> item.repo != ""
  }

  predicate Fresh(st: State, id: string) {
    forall s :: s in st.sessions ==> s.id != id
  }

  lemma {:induction false} DropFacts(sessions: seq<Session>, id: string)
    requires Exclusive(sessions)
    ensures Exclusive(Drop(sessions, id))
    ensures forall s :: s in Drop(sessions, id) <==> s in sessions && s.id != id
  {
    if sessions != [] {
      assert sessions == [sessions[0]] + sessions[1..];
      if sessions[0].id != id {
        DropFacts(sessions[1..], id);
        var rest := Drop(sessions[1..], id);
        forall j | 0 <= j < |rest|
          ensures sessions[0].id != rest[j].id
          ensures SameRepo(sessions[0].repo, rest[j].repo) ==> !Overlap(sessions[0].paths, rest[j].paths)
        {
          assert rest[j] in sessions[1..];
        }
      }
    }
  }

  lemma {:induction false} ReleaseSplitsQueue(sessions: seq<Session>, repo: string, queue: seq<Item>)
    ensures forall x :: x in Woken(sessions, repo, queue) <==> x in queue && Wakes(sessions, repo, x)
    ensures forall x :: x in StillQueued(sessions, repo, queue) <==> x in queue && !Wakes(sessions, repo, x)
    ensures multiset(Woken(sessions, repo, queue)) + multiset(StillQueued(sessions, repo, queue)) == multiset(queue)
  {
    if queue != [] {
      var init := queue[..|queue| - 1];
      assert queue == init + [queue[|queue| - 1]];
      ReleaseSplitsQueue(sessions, repo, init);
    }
  }

  /** A dispatch leaves a good state good if and only if it names a repository, is let through, or is
      held up by a session of its own repository; a dispatch without a name that only sessions of
      other repositories hold up is queued with nobody to wake it. */
  lemma DispatchKeepsGoodIff(st: State, repo: string, paths: seq<string>, id: string)
    requires Good(st) && Fresh(st, id)
    ensures Good(Dispatch(st, repo, paths, id))
            <==> repo != "" || Blocker(st.sessions, repo, paths).None?
                 || exists s :: s in st.sessions && SameRepo(s.repo, "") && Overlap(s.paths, paths)
  {
    hide Overlap, SameRepo;
    var st' := Dispatch(st, repo, paths, id);
    if Blocker(st.sessions, repo, paths).None? {
      forall s | s in st.sessions && SameRepo(s.repo, repo) ensures !Overlap(s.paths, paths) {
        assert Considered(s, repo);
      }
      forall x | x in st.queue ensures Blocked(st'.sessions, x) {
        var s :| s in st.sessions && SameRepo(s.repo, x.repo) && Overlap(s.paths, x.paths);
        assert s in st'.sessions;
      }
    } else {
      var last := st'.queue[|st.queue|];
      assert last in st'.queue;
      assert forall x :: x in st'.queue <==> x in st.queue || x == last;
    }
  }

  /** The queued dispatches that no active session blocks, in their order. */
  function Free(sessions: seq<Session>, queue: seq<Item>): seq<Item> {
    if queue == [] then []
    else
      var init, x := queue[..|queue| - 1], queue[|queue| - 1];
      Free(sessions, init) + if Blocked(sessions, x) then [] else [x]
  }

  /** The others, in their order. */
  function Waiting(sessions: seq<Session>, queue: seq<Item>): seq<Item> {
    if queue == [] then []
    else
      var init, x := queue[..|queue| - 1], queue[|queue| - 1];
      Waiting(sessions, init) + if Blocked(sessions, x) then [x] else []
  }

  lemma {:induction false} SplitIsFree(sessions: seq<Session>, repo: string, queue: seq<Item>)
    requires forall x | x in queue :: Wakes(sessions, repo, x) <==> !Blocked(sessions, x)
    ensures Woken(sessions, repo, queue) == Free(sessions, queue)
    ensures StillQueued(sessions, repo, queue) == Waiting(sessions, queue)
  {
    hide Wakes, Blocked;
    if queue != [] {
      var init := queue[..|queue| - 1];
      assert queue == init + [queue[|queue| - 1]];
      SplitIsFree(sessions, repo, init);
      assert Free(sessions, init) + [] == Free(sessions, init) && Waiting(sessions, init) + [] == Waiting(sessions, init);
    }
  }

  lemma {:induction false} NobodyIsFree(sessions: seq<Session>, queue: seq<Item>)
    requires forall x | x in queue :: Blocked(sessions, x)
    ensures Free(sessions, queue) == [] && Waiting(sessions, queue) == queue
  {
    hide Blocked;
    if queue != [] {
      assert queue == queue[..|queue| - 1] + [queue[|queue| - 1]];
      NobodyIsFree(sessions, queue[..|queue| - 1]);
    }
  }

  /** A release keeps the invariant and splits the queue in order: it hands back exactly the
      dispatches that nobody blocks any more and keeps exactly the others, so none is
      forgotten and none is woken early. */
  lemma ReleaseKeepsInv(st: State, id: string)
    requires Inv(st)
    ensures Inv(Release(st, id).0)
    ensures Release(st, id).1 == Free(Release(st, id).0.sessions, st.queue)
    ensures Release(st, id).0.queue == Waiting(Release(st, id).0.sessions, st.queue)
    ensures multiset(Release(st, id).1) + multiset(Release(st, id).0.queue) == multiset(st.queue)
  {
    hide Blocked, Wakes, Woken, StillQueued, Overlap, SameRepo, Free, Waiting;
    var found := FindSession(st.sessions, id);
    if found.Some? {
      var repo, rest := found.value.repo, Drop(st.sessions, id);
      DropFacts(st.sessions, id);
      hide Exclusive;
      ReleaseSplitsQueue(rest, repo, st.queue);
      forall x | x in st.queue ensures Wakes(rest, repo, x) <==> !Blocked(rest, x) {
        WakesIffUnblocked(st, found.value, x);
      }
      SplitIsFree(rest, repo, st.queue);
    } else {
      NobodyIsFree(st.sessions, st.queue);
    }
  }

  lemma WakesIffUnblocked(st: State, released: Session, x: Item)
    requires Inv(st) && released in st.sessions && x in st.queue
    ensures Wakes(Drop(st.sessions, released.id), released.repo, x) <==> !Blocked(Drop(st.sessions, released.id), x)
  {
    hide Overlap;
    var rest := Drop(st.sessions, released.id);
    DropFacts(st.sessions, released.id);
    if Blocked(rest, x) {
      var s :| s in rest && SameRepo(s.repo, x.repo) && Overlap(s.paths, x.paths);
      assert Considered(s, x.repo);
    } else {
      var s :| s in st.sessions && SameRepo(s.repo, x.repo) && Overlap(s.paths, x.paths);
      assert s.id == released.id;
      SameIdSameSession(st.sessions, s, released);
    }
  }

  lemma SameIdSameSession(sessions: seq<Session>, a: Session, b: Session)
    requires Exclusive(sessions) && a in sessions && b in sessions && a.id == b.id
    ensures a == b
  {
  }

  lemma {:induction false} AttachFacts(sessions: seq<Session>, id: string, pr: int)
    requires Exclusive(sessions)
    ensures var after := AttachPr(sessions, id, pr);
            && |after| == |sessions|
            && forall i | 0 <= i < |sessions| ::
                 after[i] == if sessions[i].id == id then sessions[i].(pr := Some(pr)) else sessions[i]
  {
    if sessions != [] && sessions[0].id != id {
      AttachFacts(sessions[1..], id, pr);
    }
  }

  lemma AttachKeepsInv(st: State, id: string, pr: int)
    requires Inv(st)
    ensures Inv(st.(sessions := AttachPr(st.sessions, id, pr)))
  {
    hide Overlap, SameRepo;
    AttachFacts(st.sessions, id, pr);
    var after := AttachPr(st.sessions, id, pr);
    forall x | x in st.queue ensures Blocked(after, x) {
      var i :| 0 <= i < |st.sessions| && SameRepo(st.sessions[i].repo, x.repo) && Overlap(st.sessions[i].paths, x.paths);
      assert after[i] in after;
    }
  }

  // ---------------------------------------------------------------- whole runs

  datatype Op =
    | TryDispatch(repo: string, paths: seq<string>, id: string)
    | ReleaseOp(id: string)
    | AttachOp(id: string, pr: int)

  function Apply(st: State, op: Op): State {
    match op
    case TryDispatch(repo, paths, id) => Dispatch(st, repo, paths, id)
    case ReleaseOp(id) => Release(st, id).0
    case AttachOp(id, pr) => st.(sessions := AttachPr(st.sessions, id, pr))
  }

  /** Identifiers are fresh, and only if `nameless` may a dispatch come without a repository. */
  predicate Allowed(nameless: bool, st: State, op: Op) {
    op.TryDispatch? ==> Fresh(st, op.id) && (nameless || op.repo != "")
  }

  function Run(ops: seq<Op>): State {
    if ops == [] then State([], []) else Apply(Run(ops[..|ops| - 1]), ops[|ops| - 1])
  }

  predicate Keeps(nameless: bool, ops: seq<Op>) {
    forall i | 0 <= i < |ops| :: Allowed(nameless, Run(ops[..i]), ops[i])
  }

  /** In every state reached by dispatches that name a repository, releases and attachments,
      active sessions of one repository do not overlap and no wakeup was lost. */
  lemma {:induction false} RunsKeepInv(ops: seq<Op>)
    requires Keeps(false, ops)
    ensures Inv(Run(ops))
  {
    hide Inv, Dispatch, Release, AttachPr;
    if ops != [] {
      var init, op := ops[..|ops| - 1], ops[|ops| - 1];
      forall i | 0 <= i < |init| ensures Allowed(false, Run(init[..i]), init[i]) {
        assert init[..i] == ops[..i];
      }
      RunsKeepInv(init);
      assert Allowed(false, Run(init), op);
      match op
      case TryDispatch(repo, paths, id) => DispatchKeepsInv(Run(init), repo, paths, id);
      case ReleaseOp(id) => ReleaseKeepsInv(Run(init), id);
      case AttachOp(id, pr) => AttachKeepsInv(Run(init), id, pr);
    } else {
      EmptyInv();
    }
  }

  lemma DispatchKeepsInv(st: State, repo: string, paths: seq<string>, id: string)
    requires Inv(st) && Fresh(st, id) && repo != ""
    ensures Inv(Dispatch(st, repo, paths, id))
  {
    DispatchKeepsGoodIff(st, repo, paths, id);
    hide Good;
  }

  lemma EmptyInv()
    ensures Inv(State([], []))
  {
  }

  ghost predicate AlwaysGood(nameless: bool) {
    forall ops | Keeps(nameless, ops) :: Good(Run(ops))
  }

  /** Main result: over all runs, active sessions of one repository never overlap and no wakeup is
      lost, if and only if every dispatch must name its repository. */
  lemma NoLostWakeupIff(nameless: bool)
    ensures AlwaysGood(nameless) <==> !nameless
  {
    hide Run, Good, Keeps;
    if nameless {
      NamelessDispatchIsForgotten();
    } else {
      forall ops | Keeps(nameless, ops) ensures Good(Run(ops)) {
        RunsKeepInv(ops);
      }
    }
  }

  const FORGOTTEN := [TryDispatch("r", ["x"], "1"), TryDispatch("", ["x"], "2"), ReleaseOp("1")]

  /** A queued dispatch without a repository name is blocked by sessions of any repository, but
      only a session without a name wakes it: once they are gone it still waits, ... */
  lemma NamelessDispatchIsForgotten()
    ensures Keeps(true, FORGOTTEN) && !Good(Run(FORGOTTEN))
    ensures Run(FORGOTTEN) == State([], [Item("2", "", ["x"], "1")])
  {
    hide Overlap;
    var a, b, c := TryDispatch("r", ["x"], "1"), TryDispatch("", ["x"], "2"), ReleaseOp("1");
    assert [a][..0] == [] && [a, b][..1] == [a] && FORGOTTEN[..2] == [a, b] && FORGOTTEN[..1] == [a] && FORGOTTEN[..0] == [];
    OverlapsItself("x");
    assert Run([a]) == State([Session("1", "r", ["x"], None)], []);
    assert Run([a, b]) == State([Session("1", "r", ["x"], None)], [Item("2", "", ["x"], "1")]);
    assert Strip("r") == "r" && Strip("") == "" && |Lower("r")| == 1 && |Lower("")| == 0;
    assert [Item("2", "", ["x"], "1")][..0] == [];
    assert Run(FORGOTTEN).queue[0] in Run(FORGOTTEN).queue;
  }

  function RunFrom(st: State, ops: seq<Op>): State {
    if ops == [] then st else Apply(RunFrom(st, ops[..|ops| - 1]), ops[|ops| - 1])
  }

  predicate AllNamed(sessions: seq<Session>) {
    forall i | 0 <= i < |sessions| :: !SameRepo("", sessions[i].repo)
  }

  /** ... whatever named repositories dispatch and release afterwards. */
  lemma {:induction false} NamelessWaitsForever(st: State, ops: seq<Op>, x: Item)
    requires x in st.queue && x.repo == "" && AllNamed(st.sessions)
    requires forall i | 0 <= i < |ops| && ops[i].TryDispatch? :: !SameRepo("", ops[i].repo)
    ensures x in RunFrom(st, ops).queue && AllNamed(RunFrom(st, ops).sessions)
  {
    if ops != [] {
      NamelessWaitsForever(st, ops[..|ops| - 1], x);
      hide SameRepo, Apply;
      NamelessStays(RunFrom(st, ops[..|ops| - 1]), ops[|ops| - 1], x);
    }
  }

  lemma NamelessStays(st: State, op: Op, x: Item)
    requires x in st.queue && x.repo == "" && AllNamed(st.sessions) && (op.TryDispatch? ==> !SameRepo("", op.repo))
    ensures x in Apply(st, op).queue && AllNamed(Apply(st, op).sessions)
  {
    hide SameRepo, Overlap, Blocker;
    match op
    case TryDispatch(_, _, _) =>
    case ReleaseOp(id) =>
      DropLeavesNamed(st.sessions, id);
      var found := FindSession(st.sessions, id);
      if found.Some? {
        ReleaseSplitsQueue(Drop(st.sessions, id), found.value.repo, st.queue);
      }
    case AttachOp(id, pr) => AttachLeavesNamed(st.sessions, id, pr);
  }

  lemma {:induction false} DropLeavesNamed(sessions: seq<Session>, id: string)
    requires AllNamed(sessions)
    ensures AllNamed(Drop(sessions, id))
  {
    hide SameRepo;
    if sessions != [] {
      DropLeavesNamed(sessions[1..], id);
    }
  }

  lemma {:induction false} AttachLeavesNamed(sessions: seq<Session>, id: string, pr: int)
    requires AllNamed(sessions)
    ensures AllNamed(AttachPr(sessions, id, pr))
  {
    hide SameRepo;
    if sessions != [] {
      AttachLeavesNamed(sessions[1..], id, pr);
    }
  }

  lemma OverlapsItself(p: string)
    requires p == "x"
    ensures Overlap([p], [p])
  {
    NormalAlready(p);
    assert p in Normals([p]) && PairOverlap(p, p);
  }

  /** Closing a pull request ends all of its sessions, keeps the invariant, and hands back
      or keeps every queued dispatch. */
  lemma {:induction false} ReleaseAllKeepsInv(st: State, ids: seq<string>)
    requires Inv(st)
    ensures var (after, woken) := ReleaseAll(st, ids);
            && Inv(after)
            && multiset(woken) + multiset(after.queue) == multiset(st.queue)
            && forall s :: s in after.sessions <==> s in st.sessions && s.id !in ids
  {
    hide Inv, Release;
    if ids != [] {
      var init, id := ids[..|ids| - 1], ids[|ids| - 1];
      assert ids == init + [id];
      ReleaseAllKeepsInv(st, init);
      var (st1, woken1) := ReleaseAll(st, init);
      ReleaseKeepsInv(st1, id);
      ReleaseDrops(st1, id);
    }
  }

  lemma ReleaseDrops(st: State, id: string)
    requires Inv(st)
    ensures forall s :: s in Release(st, id).0.sessions <==> s in st.sessions && s.id != id
  {
    DropFacts(st.sessions, id);
    if FindSession(st.sessions, id).None? {
      NotFound(st.sessions, id);
    }
  }

  lemma {:induction false} NotFound(sessions: seq<Session>, id: string)
    requires FindSession(sessions, id).None?
    ensures forall s :: s in sessions ==> s.id != id
  {
    if sessions != [] {
      NotFound(sessions[1..], id);
    }
  }

  lemma {:induction false} PrSessionsAreThePrs(sessions: seq<Session>, repo: string, pr: int, id: string)
    ensures id in PrSessions(sessions, repo, pr)
            <==> exists s :: s in sessions && SameRepo(s.repo, repo) && s.pr == Some(pr) && s.id == id
  {
    if sessions != [] {
      PrSessionsAreThePrs(sessions[1..], repo, pr, id);
      assert forall s :: s in sessions <==> s == sessions[0] || s in sessions[1..];
    }
  }

  /** Closing a pull request ends its sessions and no others. */
  lemma ClosingEndsThePr(st: State, repo: string, pr: int)
    requires Inv(st)
    ensures var (after, woken) := ReleaseAll(st, PrSessions(st.sessions, repo, pr));
            && Inv(after)
            && forall s :: s in after.sessions <==> s in st.sessions && !(SameRepo(s.repo, repo) && s.pr == Some(pr))
  {
    ReleaseAllKeepsInv(st, PrSessions(st.sessions, repo, pr));
    forall s | s in st.sessions ensures s.id in PrSessions(st.sessions, repo, pr) <==> SameRepo(s.repo, repo) && s.pr == Some(pr) {
      PrSessionsAreThePrs(st.sessions, repo, pr, s.id);
      OnlyOne(st, s);
    }
    hide Inv;
  }

  lemma OnlyOne(st: State, s: Session)
    requires Inv(st) && s in st.sessions
    ensures forall x :: x in st.sessions && x.id == s.id ==> x == s
  {
    forall x | x in st.sessions && x.id == s.id ensures x == s {
      SameIdSameSession(st.sessions, x, s);
    }
  }

  /** A repository is the same whatever white space is around its name and whatever its case. */
  lemma SameRepoIff(a: string, b: string)
    ensures SameRepo(a, b) <==> SameName(a, b)
  {
    SameNameIff(a, b);
  }
}
