/** amf/encode.go, typeEncoder: any number of threads filling one cache of encoders. */
module EncoderCache {
  type TypeId = nat

  /** For each type, the types whose encoders its own encoder is built from, in the order
      newTypeEncoder asks for them. Types may refer to one another in cycles. */
  type Deps = map<TypeId, seq<TypeId>>

  ghost predicate Closed(deps: Deps) {
    forall t, i | t in deps && 0 <= i < |deps[t]| :: deps[t][i] in deps
  }

  /** An entry is a wrapper that waits for its builder, or the encoder itself. */
  datatype Entry = Placeholder | Final

  /** Where a call of typeEncoder stands. */
  datatype Pc =
    | Loading                  // about to look the type up
    | Storing                  // not found: about to LoadOrStore a placeholder
    | Building(next: nat)      // stored it: next dependency to ask for
    | Publishing               // built, wait group released: about to store the encoder

  datatype Frame = Frame(typ: TypeId, pc: Pc)

  datatype Wait = Running | WaitFor(typ: TypeId)

  /** A thread is the stack of its calls, innermost first; with an empty stack it may be
      encoding, and then waiting for the builder of a placeholder it holds. */
  datatype Thread = Thread(stack: seq<Frame>, wait: Wait)

  datatype State = State(cache: map<TypeId, Entry>, released: set<TypeId>, threads: seq<Thread>)

  // ---- Steps

  function Pop(th: Thread): Thread
    requires th.stack != []
  {
    th.(stack := th.stack[1..])
  }

  function Top(th: Thread, pc: Pc): Thread
    requires th.stack != []
  {
    th.(stack := [th.stack[0].(pc := pc)] + th.stack[1..])
  }

  function Push(th: Thread, t: TypeId): Thread {
    th.(stack := [Frame(t, Loading)] + th.stack)
  }

  /** One atomic step inside typeEncoder by thread i. */
  ghost predicate BuildStep(deps: Deps, s: State, i: nat, s': State) {
    && i < |s.threads| && s.threads[i].stack != []
    && var th := s.threads[i];
    var t, pc := th.stack[0].typ, th.stack[0].pc;
    match pc
    case Loading =>
      s' == s.(threads := s.threads[i := if t in s.cache then Pop(th) else Top(th, Storing)])
    case Storing =>
      if t in s.cache then s' == s.(threads := s.threads[i := Pop(th)])
      else s' == s.(cache := s.cache[t := Placeholder], threads := s.threads[i := Top(th, Building(0))])
    case Building(n) =>
      t in deps &&
      if n < |deps[t]| then s' == s.(threads := s.threads[i := Push(Top(th, Building(n + 1)), deps[t][n])])
      else s' == s.(released := s.released + {t}, threads := s.threads[i := Top(th, Publishing)])
    case Publishing =>
      s' == s.(cache := s.cache[t := Final], threads := s.threads[i := Pop(th)])
  }

  /** Outside: a thread calls typeEncoder, or runs an encoder that waits for the builders
      of placeholders, and goes on when a wait group is released. */
  ghost predicate RunStep(deps: Deps, s: State, i: nat, s': State) {
    && i < |s.threads| && s.threads[i].stack == []
    && var th := s.threads[i];
    || (exists t :: t in deps && th.wait.Running? && s' == s.(threads := s.threads[i := Push(th, t)]))
    || (exists t :: t in s.cache && th.wait.Running? && s' == s.(threads := s.threads[i := th.(wait := WaitFor(t))]))
    || (th.wait.WaitFor? && th.wait.typ in s.released && s' == s.(threads := s.threads[i := th.(wait := Running)]))
  }

  ghost predicate Step(deps: Deps, s: State, s': State) {
    exists i :: BuildStep(deps, s, i, s') || RunStep(deps, s, i, s')
  }

  ghost predicate Initial(s: State) {
    s.cache == map[] && s.released == {} && forall th | th in s.threads :: th == Thread([], Running)
  }

  ghost predicate Run(deps: Deps, run: seq<State>) {
    && run != [] && Initial(run[0])
    && forall k | 0 <= k < |run| - 1 :: Step(deps, run[k], run[k + 1])
  }

  // ---- The invariant

  /** The frame has stored a placeholder and not yet replaced it. */
  predicate Owns(f: Frame) {
    f.pc.Building? || f.pc.Publishing?
  }

  /** Frame j of thread i is building the encoder of t. */
  ghost predicate Builds(s: State, t: TypeId, i: nat, j: nat) {
    && i < |s.threads| && j < |s.threads[i].stack|
    && s.threads[i].stack[j].typ == t && Owns(s.threads[i].stack[j])
  }

  /** A frame at depth j of a stack: only the innermost is anything but a builder in the
      middle of its dependencies, and a builder's entry is a placeholder, whose wait group
      is released once it only remains to be replaced. */
  ghost predicate FrameOk(deps: Deps, s: State, j: nat, f: Frame) {
    && f.typ in deps
    && (j > 0 ==> f.pc.Building?)
    && (f.pc.Building? ==> f.pc.next <= |deps[f.typ]|)
    && (Owns(f) ==> f.typ in s.cache && s.cache[f.typ] == Placeholder && (f.typ in s.released <==> f.pc.Publishing?))
  }

  ghost predicate ThreadOk(deps: Deps, s: State, th: Thread) {
    && (forall j | 0 <= j < |th.stack| :: FrameOk(deps, s, j, th.stack[j]))
    && (th.wait.WaitFor? ==> th.wait.typ in s.cache && th.stack == [])
  }

  ghost predicate CacheOk(deps: Deps, s: State) {
    && s.cache.Keys <= deps.Keys
    && (forall t | t in s.released :: t in s.cache)
    && (forall t | t in s.cache && s.cache[t] == Final :: t in s.released)
    && (forall t | t in s.cache && s.cache[t] == Placeholder :: exists i, j :: Builds(s, t, i, j))
  }

  ghost predicate OneBuilder(s: State) {
    forall t, i, j, i', j' | Builds(s, t, i, j) && Builds(s, t, i', j') :: i == i' && j == j'
  }

  ghost predicate Inv(deps: Deps, s: State) {
    && (forall i | 0 <= i < |s.threads| :: ThreadOk(deps, s, s.threads[i]))
    && CacheOk(deps, s) && OneBuilder(s)
  }

  lemma InitialInv(deps: Deps, s: State)
    requires Initial(s)
    ensures Inv(deps, s)
  {
    forall i | 0 <= i < |s.threads| ensures s.threads[i] == Thread([], Running) {
      assert s.threads[i] in s.threads;
    }
  }

  /** A step changes only the top of one stack: deeper frames keep their distance from
      the bottom. */
  lemma StepBelow(deps: Deps, s: State, i: nat, s': State)
    requires BuildStep(deps, s, i, s')
    ensures |s'.threads| == |s.threads| && s'.threads[i].wait == s.threads[i].wait
    ensures forall k | 0 <= k < |s.threads| && k != i :: s'.threads[k] == s.threads[k]
    ensures var a, b := s.threads[i].stack, s'.threads[i].stack;
            && |a| - 1 <= |b| <= |a| + 1
            && (|b| < |a| ==> b == a[1..])
            && (|b| == |a| ==> b[0].typ == a[0].typ && b[1..] == a[1..])
            && (|b| > |a| ==> b[0].pc == Loading && b[1].typ == a[0].typ && b[2..] == a[1..])
  {
  }

  lemma StepThreads(deps: Deps, s: State, i: nat, s': State)
    requires Closed(deps) && Inv(deps, s) && BuildStep(deps, s, i, s')
    ensures forall k | 0 <= k < |s'.threads| :: ThreadOk(deps, s', s'.threads[k])
  {
    var th := s.threads[i];
    assert ThreadOk(deps, s, th) && FrameOk(deps, s, 0, th.stack[0]);
    forall k | 0 <= k < |s'.threads| ensures ThreadOk(deps, s', s'.threads[k]) {
      assert ThreadOk(deps, s, s.threads[k]);
      OthersApart(deps, s, i, k);
    }
  }

  /** The type whose call is on top of stack i is not being built elsewhere when that call
      owns it. */
  lemma OthersApart(deps: Deps, s: State, i: nat, k: nat)
    requires Inv(deps, s) && i < |s.threads| && k < |s.threads| && s.threads[i].stack != []
    ensures Owns(s.threads[i].stack[0]) ==>
              forall j | 0 <= j < |s.threads[k].stack| && (k != i || j > 0) && Owns(s.threads[k].stack[j]) ::
                s.threads[k].stack[j].typ != s.threads[i].stack[0].typ
  {
    var t := s.threads[i].stack[0].typ;
    if Owns(s.threads[i].stack[0]) {
      assert Builds(s, t, i, 0);
      forall j | 0 <= j < |s.threads[k].stack| && (k != i || j > 0) && Owns(s.threads[k].stack[j])
        ensures s.threads[k].stack[j].typ != t
      {
        if s.threads[k].stack[j].typ == t {
          assert Builds(s, t, k, j);
        }
      }
    }
  }

  lemma StepKeepsBuilder(deps: Deps, s: State, i: nat, s': State, t: TypeId, k: nat, j: nat)
    requires BuildStep(deps, s, i, s') && Builds(s, t, k, j)
    requires !(k == i && j == 0 && s.threads[i].stack[0].pc.Publishing?)
    ensures Builds(s', t, k, if k == i then j + |s'.threads[i].stack| - |s.threads[i].stack| else j)
  {
    StepBelow(deps, s, i, s');
  }

  lemma StepCache(deps: Deps, s: State, i: nat, s': State)
    requires Closed(deps) && Inv(deps, s) && BuildStep(deps, s, i, s')
    ensures CacheOk(deps, s')
  {
    assert ThreadOk(deps, s, s.threads[i]) && FrameOk(deps, s, 0, s.threads[i].stack[0]);
    forall t | t in s'.cache && s'.cache[t] == Placeholder ensures exists k, j :: Builds(s', t, k, j) {
      if t in s.cache {
        var k, j :| Builds(s, t, k, j);
        StepKeepsBuilder(deps, s, i, s', t, k, j);
      } else {
        assert Builds(s', t, i, 0);
      }
    }
  }

  lemma StepOneBuilder(deps: Deps, s: State, i: nat, s': State)
    requires Closed(deps) && Inv(deps, s) && BuildStep(deps, s, i, s')
    ensures OneBuilder(s')
  {
    forall t, k, j, k', j' | Builds(s', t, k, j) && Builds(s', t, k', j') ensures k == k' && j == j' {
      BuilderBefore(deps, s, i, s', t, k, j);
      BuilderBefore(deps, s, i, s', t, k', j');
    }
  }

  /** Where a builder after the step was before it: it either was one, or has just stored
      the placeholder. */
  lemma BuilderBefore(deps: Deps, s: State, i: nat, s': State, t: TypeId, k: nat, j: nat)
    requires Inv(deps, s) && BuildStep(deps, s, i, s') && Builds(s', t, k, j)
    ensures if t in s.cache
            then
              if k != i then Builds(s, t, k, j)
              else j + |s.threads[i].stack| >= |s'.threads[i].stack|
                   && Builds(s, t, k, j + |s.threads[i].stack| - |s'.threads[i].stack|)
            else k == i && j == 0
  {
    StepBelow(deps, s, i, s');
    assert ThreadOk(deps, s, s.threads[k]);
    if k != i {
      assert FrameOk(deps, s, j, s.threads[k].stack[j]);
    } else {
      var a, b := s.threads[i].stack, s'.threads[i].stack;
      assert forall l | 0 <= l < |a| :: FrameOk(deps, s, l, a[l]);
      if |b| < |a| {
        assert b[j] == a[j + 1];
      } else if |b| == |a| {
        assert j > 0 ==> b[j] == b[1..][j - 1] == a[1..][j - 1] == a[j];
      } else {
        assert j > 1 ==> b[j] == b[2..][j - 2] == a[1..][j - 2] == a[j - 1];
      }
    }
  }

  lemma BuildStepInv(deps: Deps, s: State, i: nat, s': State)
    requires Closed(deps) && Inv(deps, s) && BuildStep(deps, s, i, s')
    ensures Inv(deps, s')
  {
    StepThreads(deps, s, i, s');
    StepCache(deps, s, i, s');
    StepOneBuilder(deps, s, i, s');
  }

  lemma RunStepInv(deps: Deps, s: State, i: nat, s': State)
    requires Closed(deps) && Inv(deps, s) && RunStep(deps, s, i, s')
    ensures Inv(deps, s')
  {
    assert ThreadOk(deps, s, s.threads[i]);
    forall k | 0 <= k < |s'.threads| ensures ThreadOk(deps, s', s'.threads[k]) {
      assert ThreadOk(deps, s, s.threads[k]);
    }
    forall t, k, j ensures Builds(s', t, k, j) <==> Builds(s, t, k, j) {
    }
  }

  // ---- Every run

  /** The invariant holds in every state of every interleaving. */
  lemma {:induction false} RunInv(deps: Deps, run: seq<State>, k: nat)
    requires Closed(deps) && Run(deps, run) && k < |run|
    ensures Inv(deps, run[k])
  {
    if k == 0 {
      InitialInv(deps, run[0]);
    } else {
      RunInv(deps, run, k - 1);
      assert Step(deps, run[k - 1], run[k]);
      var i: nat :| BuildStep(deps, run[k - 1], i, run[k]) || RunStep(deps, run[k - 1], i, run[k]);
      if BuildStep(deps, run[k - 1], i, run[k]) {
        BuildStepInv(deps, run[k - 1], i, run[k]);
      } else {
        RunStepInv(deps, run[k - 1], i, run[k]);
      }
    }
  }

  // ---- Every dependency is asked for

  /** What the call at depth j has asked for is in the cache, but for the type whose call is
      directly on top of it. */
  ghost predicate Asked(deps: Deps, s: State, stack: seq<Frame>, j: nat)
    requires j < |stack|
  {
    var f := stack[j];
    f.typ in deps ==>
      match f.pc
      case Building(n) =>
        && n <= |deps[f.typ]|
        && (j > 0 ==> n > 0 && stack[j - 1].typ == deps[f.typ][n - 1])
        && forall k | 0 <= k < if j > 0 then n - 1 else n :: deps[f.typ][k] in s.cache
      case Publishing => AllCached(deps, s, f.typ)
      case _ => true
  }

  ghost predicate AllCached(deps: Deps, s: State, t: TypeId) {
    t in deps ==> forall k | 0 <= k < |deps[t]| :: deps[t][k] in s.cache
  }

  ghost predicate AskedInv(deps: Deps, s: State) {
    && (forall t | t in s.released :: AllCached(deps, s, t))
    && forall i, j | 0 <= i < |s.threads| && 0 <= j < |s.threads[i].stack| :: Asked(deps, s, s.threads[i].stack, j)
  }

  lemma CacheGrows(deps: Deps, s: State, i: nat, s': State)
    requires BuildStep(deps, s, i, s') || RunStep(deps, s, i, s')
    ensures s.cache.Keys <= s'.cache.Keys
  {
  }

  /** The frames a step makes: where the call on top asks for its next dependency, has asked
      for all, or is gone, its type then being in the cache. */
  lemma TopAsked(deps: Deps, s: State, i: nat, s': State)
    requires BuildStep(deps, s, i, s') && Asked(deps, s, s.threads[i].stack, 0)
    requires s.threads[i].stack[0].pc.Building? ==> s.threads[i].stack[0].typ in deps
    ensures var a, b := s.threads[i].stack, s'.threads[i].stack;
            && (s'.released != s.released ==> s'.released == s.released + {a[0].typ} && AllCached(deps, s, a[0].typ))
            && (|b| < |a| ==> a[0].typ in s'.cache)
            && (|b| >= |a| ==> Asked(deps, s', b, 0))
            && (|b| > |a| ==> Asked(deps, s', b, 1))
  {
  }

  /** A frame that stays, with the same kind of call on top of it or, on top of it, one of
      a type that is in the cache by now. */
  lemma StaysAsked(deps: Deps, s: State, a: seq<Frame>, j: nat, s': State, b: seq<Frame>, l: nat)
    requires j < |a| && l < |b| && b[l] == a[j] && Asked(deps, s, a, j) && s.cache.Keys <= s'.cache.Keys
    requires if l > 0 then j > 0 && b[l - 1].typ == a[j - 1].typ else j > 0 ==> a[j - 1].typ in s'.cache
    ensures Asked(deps, s', b, l)
  {
  }

  lemma StackAsked(deps: Deps, s: State, i: nat, s': State, j: nat)
    requires Inv(deps, s) && AskedInv(deps, s) && BuildStep(deps, s, i, s') && j < |s'.threads[i].stack|
    ensures Asked(deps, s', s'.threads[i].stack, j)
  {
    StepBelow(deps, s, i, s');
    CacheGrows(deps, s, i, s');
    var a, b := s.threads[i].stack, s'.threads[i].stack;
    assert ThreadOk(deps, s, s.threads[i]) && FrameOk(deps, s, 0, a[0]) && Asked(deps, s, a, 0);
    TopAsked(deps, s, i, s');
    hide Inv, BuildStep, Asked;
    if |b| < |a| {
      StaysAsked(deps, s, a, j + 1, s', b, j);
    } else if |b| == |a| {
      if j > 0 {
        assert b[j] == b[1..][j - 1] == a[1..][j - 1] == a[j];
        assert j > 1 ==> b[j - 1] == b[1..][j - 2] == a[1..][j - 2] == a[j - 1];
        StaysAsked(deps, s, a, j, s', b, j);
      }
    } else if j > 1 {
      assert b[j] == b[2..][j - 2] == a[1..][j - 2] == a[j - 1];
      assert j > 2 ==> b[j - 1] == b[2..][j - 3] == a[1..][j - 3] == a[j - 2];
      StaysAsked(deps, s, a, j - 1, s', b, j);
    }
  }

  /** A call from outside has asked for nothing yet. */
  lemma CallAsked(deps: Deps, s: State, i: nat, s': State, k: nat, j: nat)
    requires RunStep(deps, s, i, s') && k < |s'.threads| && j < |s'.threads[k].stack| && s'.threads[k].stack != s.threads[k].stack
    ensures Asked(deps, s', s'.threads[k].stack, j)
  {
  }

  lemma AskedStep(deps: Deps, s: State, s': State)
    requires Inv(deps, s) && AskedInv(deps, s) && Step(deps, s, s')
    ensures AskedInv(deps, s')
  {
    var i: nat :| BuildStep(deps, s, i, s') || RunStep(deps, s, i, s');
    CacheGrows(deps, s, i, s');
    if BuildStep(deps, s, i, s') {
      assert ThreadOk(deps, s, s.threads[i]) && FrameOk(deps, s, 0, s.threads[i].stack[0]);
      assert Asked(deps, s, s.threads[i].stack, 0);
      TopAsked(deps, s, i, s');
      StepBelow(deps, s, i, s');
    }
    hide Inv, BuildStep, Asked;
    forall k, j | 0 <= k < |s'.threads| && 0 <= j < |s'.threads[k].stack|
      ensures Asked(deps, s', s'.threads[k].stack, j)
    {
      if BuildStep(deps, s, i, s') && k == i {
        StackAsked(deps, s, i, s', j);
      } else if s'.threads[k].stack == s.threads[k].stack {
        StaysAsked(deps, s, s.threads[k].stack, j, s', s'.threads[k].stack, j);
      } else {
        CallAsked(deps, s, i, s', k, j);
      }
    }
  }

  /** In every state of every interleaving: a type whose wait group is released, and so every
      finished one, has had the encoders of all types in it asked for; a call in the middle
      of building has had those so far, but for the one directly on top of it. */
  lemma {:induction false} EveryDependencyAsked(deps: Deps, run: seq<State>, k: nat)
    requires Closed(deps) && Run(deps, run) && k < |run|
    ensures forall t, i | t in run[k].released && t in deps && 0 <= i < |deps[t]| :: deps[t][i] in run[k].cache
    ensures forall t, i | t in run[k].cache && run[k].cache[t] == Final && t in deps && 0 <= i < |deps[t]| :: deps[t][i] in run[k].cache
    ensures AskedInv(deps, run[k])
  {
    RunInv(deps, run, k);
    if k > 0 {
      EveryDependencyAsked(deps, run, k - 1);
      RunInv(deps, run, k - 1);
      assert Step(deps, run[k - 1], run[k]);
      AskedStep(deps, run[k - 1], run[k]);
    }
    hide Step, BuildStep, RunStep, Asked, OneBuilder;
    assert forall t | t in run[k].released :: AllCached(deps, run[k], t);
  }

  /** So no thread goes on encoding through a placeholder before everything its encoder is
      built from has been asked for. */
  lemma NeverEarly(deps: Deps, run: seq<State>, k: nat, i: nat)
    requires Closed(deps) && Run(deps, run) && k + 1 < |run| && i < |run[k].threads| && i < |run[k + 1].threads|
    requires run[k].threads[i].wait.WaitFor? && run[k + 1].threads[i].wait.Running?
    ensures var t := run[k].threads[i].wait.typ;
            t in run[k].released && t in deps && forall j | 0 <= j < |deps[t]| :: deps[t][j] in run[k].cache
  {
    var s, s' := run[k], run[k + 1];
    EveryDependencyAsked(deps, run, k);
    RunInv(deps, run, k);
    assert ThreadOk(deps, s, s.threads[i]);
    assert Step(deps, s, s');
    var a: nat :| BuildStep(deps, s, a, s') || RunStep(deps, s, a, s');
    if BuildStep(deps, s, a, s') {
      StepBelow(deps, s, a, s');
    }
    hide AskedInv, OneBuilder;
  }

  /** Absent, then a placeholder, then the encoder. */
  function Stage(s: State, t: TypeId): nat {
    if t !in s.cache then 0 else if s.cache[t] == Placeholder then 1 else 2
  }

  lemma StepStage(deps: Deps, s: State, s': State, t: TypeId)
    requires Inv(deps, s) && Step(deps, s, s')
    ensures Stage(s, t) <= Stage(s', t) <= Stage(s, t) + 1
    ensures t in s.released ==> t in s'.released
  {
    var i: nat :| BuildStep(deps, s, i, s') || RunStep(deps, s, i, s');
    assert ThreadOk(deps, s, s.threads[i]);
    if BuildStep(deps, s, i, s') {
      assert FrameOk(deps, s, 0, s.threads[i].stack[0]);
    }
  }

  /** Along any run an entry only moves forward, and never skips the placeholder. */
  lemma {:induction false} EntriesMoveForward(deps: Deps, run: seq<State>, k: nat, l: nat, t: TypeId)
    requires Closed(deps) && Run(deps, run) && k <= l < |run|
    ensures Stage(run[k], t) <= Stage(run[l], t)
    ensures t in run[k].released ==> t in run[l].released
    decreases l - k
  {
    if k < l {
      RunInv(deps, run, k);
      assert Step(deps, run[k], run[k + 1]);
      StepStage(deps, run[k], run[k + 1], t);
      EntriesMoveForward(deps, run, k + 1, l, t);
    }
  }

  /** Each type has one builder, ever: at most one step of a run stores its placeholder. */
  lemma OneBuilderEver(deps: Deps, run: seq<State>, t: TypeId, k: nat, l: nat)
    requires Closed(deps) && Run(deps, run) && k + 1 < |run| && l + 1 < |run|
    requires Stage(run[k], t) == 0 < Stage(run[k + 1], t)
    requires Stage(run[l], t) == 0 < Stage(run[l + 1], t)
    ensures k == l
  {
    if k < l {
      EntriesMoveForward(deps, run, k + 1, l, t);
    } else if l < k {
      EntriesMoveForward(deps, run, l + 1, k, t);
    }
  }

  // ---- Building never waits

  /** A thread inside typeEncoder always has a step of its own, whatever the others do. */
  lemma BuildingNeverWaits(deps: Deps, s: State, i: nat)
    requires Inv(deps, s) && i < |s.threads| && s.threads[i].stack != []
    ensures exists s' :: BuildStep(deps, s, i, s')
  {
    var th := s.threads[i];
    assert ThreadOk(deps, s, th) && FrameOk(deps, s, 0, th.stack[0]);
    var s' := Next(deps, s, i);
    assert BuildStep(deps, s, i, s');
  }

  function Next(deps: Deps, s: State, i: nat): State
    requires i < |s.threads| && s.threads[i].stack != []
  {
    var th := s.threads[i];
    var t, pc := th.stack[0].typ, th.stack[0].pc;
    match pc
    case Loading => s.(threads := s.threads[i := if t in s.cache then Pop(th) else Top(th, Storing)])
    case Storing =>
      if t in s.cache then s.(threads := s.threads[i := Pop(th)])
      else s.(cache := s.cache[t := Placeholder], threads := s.threads[i := Top(th, Building(0))])
    case Building(n) =>
      if t in deps && n < |deps[t]| then s.(threads := s.threads[i := Push(Top(th, Building(n + 1)), deps[t][n])])
      else s.(released := s.released + {t}, threads := s.threads[i := Top(th, Publishing)])
    case Publishing => s.(cache := s.cache[t := Final], threads := s.threads[i := Pop(th)])
  }

  function FrameWork(deps: Deps, f: Frame): nat {
    match f.pc
    case Loading => 2
    case Storing => 1
    case Building(n) => 2 + if f.typ in deps && n < |deps[f.typ]| then 3 * (|deps[f.typ]| - n) else 0
    case Publishing => 1
  }

  /** The steps left to a stack, were no further type to be built. */
  function Work(deps: Deps, stack: seq<Frame>): nat {
    if stack == [] then 0 else FrameWork(deps, stack[0]) + Work(deps, stack[1..])
  }

  ghost function Absent(deps: Deps, s: State): nat {
    |deps.Keys - s.cache.Keys|
  }

  ghost predicate Before(a: (nat, nat), b: (nat, nat)) {
    a.0 < b.0 || (a.0 == b.0 && a.1 < b.1)
  }

  /** What thread i still has to do inside typeEncoder: types left to build, then steps. */
  ghost function Rank(deps: Deps, s: State, i: nat): (nat, nat)
    requires i < |s.threads|
  {
    (Absent(deps, s), Work(deps, s.threads[i].stack))
  }

  lemma AbsentStep(deps: Deps, s: State, i: nat, s': State)
    requires Inv(deps, s) && BuildStep(deps, s, i, s')
    ensures s'.cache.Keys == s.cache.Keys ==> Absent(deps, s') == Absent(deps, s)
    ensures s'.cache.Keys != s.cache.Keys ==> Absent(deps, s') < Absent(deps, s)
  {
    var t := s.threads[i].stack[0].typ;
    assert ThreadOk(deps, s, s.threads[i]) && FrameOk(deps, s, 0, s.threads[i].stack[0]);
    if s'.cache.Keys != s.cache.Keys {
      assert deps.Keys - s.cache.Keys == (deps.Keys - s'.cache.Keys) + {t};
    }
  }

  /** Every step of its own brings a call of typeEncoder nearer its end, and no step of
      another thread takes it back: a call ends after a bounded number of its own steps.
      The number of types not yet in the cache bounds the recursion. */
  lemma OwnStepDecreases(deps: Deps, s: State, i: nat, s': State)
    requires Inv(deps, s) && BuildStep(deps, s, i, s')
    ensures Before(Rank(deps, s', i), Rank(deps, s, i))
  {
    AbsentStep(deps, s, i, s');
    StepBelow(deps, s, i, s');
    assert ThreadOk(deps, s, s.threads[i]) && FrameOk(deps, s, 0, s.threads[i].stack[0]);
    StackWork(deps, s, i, s');
  }

  lemma StackWork(deps: Deps, s: State, i: nat, s': State)
    requires BuildStep(deps, s, i, s')
    requires s.threads[i].stack[0].pc.Publishing? ==> s.threads[i].stack[0].typ in s.cache
    ensures s'.cache.Keys == s.cache.Keys ==> Work(deps, s'.threads[i].stack) < Work(deps, s.threads[i].stack)
  {
    StepBelow(deps, s, i, s');
    var a, b := s.threads[i].stack, s'.threads[i].stack;
    var t := a[0].typ;
    assert a[0].pc.Storing? && t !in s.cache ==> t in s'.cache;
    if |b| > |a| {
      assert b[1..][1..] == b[2..] == a[1..];
    }
  }

  lemma OtherStepsKeep(deps: Deps, s: State, k: nat, i: nat, s': State)
    requires Inv(deps, s) && i < |s.threads| && k != i
    requires BuildStep(deps, s, k, s') || RunStep(deps, s, k, s')
    ensures i < |s'.threads| && (Rank(deps, s', i) == Rank(deps, s, i) || Before(Rank(deps, s', i), Rank(deps, s, i)))
  {
    if BuildStep(deps, s, k, s') {
      AbsentStep(deps, s, k, s');
      StepBelow(deps, s, k, s');
    } else {
      assert s'.cache == s.cache && s'.threads[i] == s.threads[i];
    }
    hide Inv, BuildStep, RunStep, Work, Absent;
  }

  // ---- Every wait ends

  lemma StillBuilding(deps: Deps, s: State, i: nat, s': State, t: TypeId)
    requires Closed(deps) && Inv(deps, s) && BuildStep(deps, s, i, s')
    requires t in s.cache && t !in s'.released && exists j :: Builds(s, t, i, j)
    ensures Inv(deps, s') && t in s'.cache && exists j :: Builds(s', t, i, j)
  {
    BuildStepInv(deps, s, i, s');
    StepStage(deps, s, s', t);
    var k, j' :| Builds(s', t, k, j');
    BuilderBefore(deps, s, i, s', t, k, j');
    var j :| Builds(s, t, i, j);
  }

  /** The builder of a type, running alone, releases its wait group. */
  lemma {:induction false} BuilderReleases(deps: Deps, s: State, i: nat, t: TypeId) returns (run: seq<State>)
    requires Closed(deps) && Inv(deps, s) && t in s.cache && exists j :: Builds(s, t, i, j)
    ensures run != [] && run[0] == s && t in run[|run| - 1].released
    ensures forall k | 0 <= k < |run| - 1 :: BuildStep(deps, run[k], i, run[k + 1])
    decreases Absent(deps, s), Work(deps, s.threads[i].stack)
  {
    if t in s.released {
      return [s];
    }
    BuildingNeverWaits(deps, s, i);
    var s' :| BuildStep(deps, s, i, s');
    OwnStepDecreases(deps, s, i, s');
    hide Inv, BuildStep, Builds;
    if t in s'.released {
      run := [s, s'];
    } else {
      StillBuilding(deps, s, i, s', t);
      var rest := BuilderReleases(deps, s', i, t);
      run := [s] + rest;
    }
  }

  /** No deadlock: from every state of every interleaving, whatever a thread waits for is
      released by steps of a single other thread, none of which waits. */
  lemma EveryWaitEnds(deps: Deps, run: seq<State>, k: nat, w: nat) returns (i: nat, more: seq<State>)
    requires Closed(deps) && Run(deps, run) && k < |run|
    requires w < |run[k].threads| && run[k].threads[w].wait.WaitFor?
    ensures more != [] && more[0] == run[k]
    ensures run[k].threads[w].wait.typ in more[|more| - 1].released
    ensures forall j | 0 <= j < |more| - 1 :: BuildStep(deps, more[j], i, more[j + 1])
  {
    RunInv(deps, run, k);
    var s := run[k];
    assert ThreadOk(deps, s, s.threads[w]);
    var t := s.threads[w].wait.typ;
    if s.cache[t] == Final {
      return 0, [s];
    }
    var b: nat, j :| Builds(s, t, b, j);
    i := b;
    more := BuilderReleases(deps, s, i, t);
  }

  // ---- The depth of the recursion

  /** The builders on a stack build different types, all in the cache. */
  lemma {:induction false} StackTypes(deps: Deps, s: State, i: nat, j: nat) returns (types: set<TypeId>)
    requires Inv(deps, s) && i < |s.threads| && 1 <= j <= |s.threads[i].stack|
    ensures |types| == |s.threads[i].stack| - j
    ensures forall t :: t in types <==> exists l :: j <= l < |s.threads[i].stack| && s.threads[i].stack[l].typ == t
    decreases |s.threads[i].stack| - j
  {
    var stack := s.threads[i].stack;
    if j == |stack| {
      types := {};
    } else {
      var rest := StackTypes(deps, s, i, j + 1);
      assert ThreadOk(deps, s, s.threads[i]) && FrameOk(deps, s, j, stack[j]);
      forall l | j + 1 <= l < |stack| ensures stack[l].typ != stack[j].typ {
        assert FrameOk(deps, s, l, stack[l]);
        assert Builds(s, stack[j].typ, i, j);
        if stack[l].typ == stack[j].typ {
          assert Builds(s, stack[j].typ, i, l);
        }
      }
      types := rest + {stack[j].typ};
    }
  }

  /** Calls of typeEncoder nest no deeper than the types in the cache, and one more. */
  lemma RecursionBounded(deps: Deps, s: State, i: nat)
    requires Inv(deps, s) && i < |s.threads|
    ensures |s.threads[i].stack| <= |s.cache| + 1
  {
    if s.threads[i].stack != [] {
      var types := StackTypes(deps, s, i, 1);
      forall t | t in types ensures t in s.cache.Keys {
        var l :| 1 <= l < |s.threads[i].stack| && s.threads[i].stack[l].typ == t;
        assert ThreadOk(deps, s, s.threads[i]) && FrameOk(deps, s, l, s.threads[i].stack[l]);
      }
      assert s.cache.Keys == types + (s.cache.Keys - types);
    }
  }
}
