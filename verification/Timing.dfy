/** Nested, dynamically scoped timing (include/svs/lib/timing.h): a tree of labelled timers,
    a stack of the running ones, and scoped handles. The clock is a parameter. */
module Timing {

  const NS_MAX: int := 0x7FFF_FFFF_FFFF_FFFF
  const NS_MIN: int := -0x8000_0000_0000_0000

  datatype TimeData = TimeData(numCalls: nat, totalTime: int, minTime: int, maxTime: int) {
    /** `operator+=`. */
    function Plus(other: TimeData): TimeData {
      TimeData(numCalls + other.numCalls, totalTime + other.totalTime,
        if other.minTime < minTime then other.minTime else minTime,
        if maxTime < other.maxTime then other.maxTime else maxTime)
    }
  }

  const NO_TIME := TimeData(0, 0, NS_MAX, NS_MIN)

  function Once(time: int): TimeData {
    TimeData(1, time, time, time)
  }

  /** What a timer has accumulated after the given intervals. */
  function Accumulated(times: seq<int>): TimeData {
    if times == [] then NO_TIME
    else Accumulated(times[..|times| - 1]).Plus(Once(times[|times| - 1]))
  }

  function Total(times: seq<int>): int {
    if times == [] then 0 else Total(times[..|times| - 1]) + times[|times| - 1]
  }

  /** Accumulated data are the count, sum, least and greatest of the intervals. */
  lemma {:induction false} AccumulatedIs(times: seq<int>)
    requires forall i :: 0 <= i < |times| ==> NS_MIN <= times[i] <= NS_MAX
    ensures var d := Accumulated(times);
      && d.numCalls == |times| && d.totalTime == Total(times)
      && (forall i :: 0 <= i < |times| ==> d.minTime <= times[i] <= d.maxTime)
      && (times != [] ==> d.minTime in times && d.maxTime in times)
  {
    if times != [] {
      var init := times[..|times| - 1];
      AccumulatedIs(init);
      assert times == init + [times[|times| - 1]];
      assert times[|times| - 1] in times;
    }
  }

  // ----- Sums over the sub-timers of a timer

  ghost function Sum(m: map<string, int>): int {
    if m == map[] then 0
    else
      var l :| l in m;
      m[l] + Sum(m - {l})
  }

  lemma {:induction false} SumWithout(m: map<string, int>, l: string)
    requires l in m
    ensures Sum(m) == m[l] + Sum(m - {l})
    decreases |m|
  {
    var k :| k in m && Sum(m) == m[k] + Sum(m - {k});
    if k != l {
      SumWithout(m - {k}, l);
      SumWithout(m - {l}, k);
      assert m - {k} - {l} == m - {l} - {k};
    }
  }

  lemma SumUpdated(m: map<string, int>, l: string, v: int)
    ensures Sum(m[l := v]) == Sum(m) + v - if l in m then m[l] else 0
  {
    SumWithout(m[l := v], l);
    if l in m {
      SumWithout(m, l);
      assert m[l := v] - {l} == m - {l};
    } else {
      assert m[l := v] - {l} == m;
    }
  }

  // ----- The state of a top timer, as a value

  /** What there is to know about one timer: its data, its sub-timers, and its place. */
  datatype Info<T> = Info(data: TimeData, timers: map<string, T>, parent: T, name: string, depth: nat)

  /** The whole tree, the running timers from the outside in, when each was started, and the
      last time seen. */
  datatype World<T(==)> = World(root: T, info: map<T, Info<T>>, stack: seq<T>, starts: seq<int>, startTime: int,
      clock: int)

  function NewWorld<T(==)>(root: T, now: int): World<T> {
    World(root, map[root := Info(NO_TIME, map[], root, "", 0)], [], [], now, now)
  }

  /** Timer `t` knows its place in the tree, and so do its sub-timers. */
  ghost predicate Placed<T>(info: map<T, Info<T>>, root: T, t: T)
    requires t in info
  {
    var n := info[t];
    && (t != root ==>
        n.parent in info && n.depth == info[n.parent].depth + 1 &&
        n.name in info[n.parent].timers && info[n.parent].timers[n.name] == t)
    && (forall l :: l in n.timers ==>
        n.timers[l] in info && n.timers[l] != root && info[n.timers[l]].parent == t && info[n.timers[l]].name == l)
  }

  /** The timers form a tree below the root. */
  ghost predicate Tree<T>(info: map<T, Info<T>>, root: T) {
    && root in info && info[root].depth == 0
    && forall t {:trigger Placed(info, root, t)} :: t in info ==> Placed(info, root, t)
  }

  /** The timer below which place `i` of the stack sits. */
  function Above<T>(w: World<T>, i: nat): T
    requires i <= |w.stack|
  {
    if i == 0 then w.root else w.stack[i - 1]
  }

  /** The timer at place `i` of the stack is a sub-timer of the one above it. */
  ghost predicate Linked<T>(w: World<T>, i: nat)
    requires i < |w.stack|
  {
    var t := w.stack[i];
    t in w.info && w.info[t].parent == Above(w, i) && w.info[t].depth == i + 1
  }

  /** The stack is a path that starts below the root. */
  ghost predicate Path<T>(w: World<T>) {
    && |w.stack| == |w.starts|
    && forall i: nat {:trigger Linked(w, i)} :: i < |w.stack| ==> Linked(w, i)
  }

  /** When the timer above place `i` was started. */
  function StartAt<T>(w: World<T>, i: nat): int
    requires i <= |w.starts|
  {
    if i == 0 then w.startTime else w.starts[i - 1]
  }

  /** When the sub-timer at place `i` took over, or now. */
  function Until<T>(w: World<T>, i: nat): int
    requires i <= |w.starts|
  {
    if i < |w.starts| then w.starts[i] else w.clock
  }

  /** The times of the sub-timers of `t`, by label. */
  function Times<T>(info: map<T, Info<T>>, t: T): map<string, int>
    requires t in info
  {
    map l | l in info[t].timers && info[t].timers[l] in info :: info[info[t].timers[l]].data.totalTime
  }

  /** `total_sub_time`: what the immediate sub-timers have accumulated together. */
  ghost function SubTime<T>(info: map<T, Info<T>>, t: T): int
    requires t in info
  {
    Sum(Times(info, t))
  }

  /** A timer that does not run: its sub-timers took no more than it did. */
  ghost predicate Settled<T>(info: map<T, Info<T>>, t: T)
    requires t in info
  {
    SubTime(info, t) <= info[t].data.totalTime
  }

  /** A timer that runs: its sub-timers took no more than it has accumulated and, since it
      was started, run before the current one took over. */
  ghost predicate Covered<T>(w: World<T>, i: nat)
    requires i <= |w.stack| == |w.starts|
  {
    Above(w, i) in w.info &&
    SubTime(w.info, Above(w, i)) <= w.info[Above(w, i)].data.totalTime + Until(w, i) - StartAt(w, i)
  }

  ghost predicate RunningCovered<T>(w: World<T>)
    requires |w.stack| == |w.starts|
  {
    forall i: nat {:trigger Covered(w, i)} :: i <= |w.stack| ==> Covered(w, i)
  }

  ghost predicate OthersSettled<T>(info: map<T, Info<T>>, root: T, stack: seq<T>) {
    forall t {:trigger Settled(info, t)} :: t in info && t != root && t !in stack ==> Settled(info, t)
  }

  /** The state of a top timer is consistent and its nested times are conserved. */
  ghost predicate Inv<T>(w: World<T>) {
    match w
    case World(root, info, stack, _, _, _) =>
      && Tree(info, root) && Path(w)
      && RunningCovered(w) && OthersSettled(info, root, stack)
      && info[root].data.totalTime == 0
  }

  // ----- The transitions

  function AddChild<T>(w: World<T>, p: T, l: string, child: T): World<T>
    requires p in w.info
  {
    var n := w.info[p];
    w.(info := w.info[p := n.(timers := n.timers[l := child])][child := Info(NO_TIME, map[], p, l, n.depth + 1)])
  }

  function Enter<T>(w: World<T>, t: T, now: int): World<T> {
    w.(stack := w.stack + [t], starts := w.starts + [now], clock := now)
  }

  /** `push_back`; `child` is the timer created when the label is new. */
  function Pushed<T>(w: World<T>, l: string, child: T, now: int): World<T>
    requires Above(w, |w.stack|) in w.info
  {
    var p := Above(w, |w.stack|);
    if l in w.info[p].timers then Enter(w, w.info[p].timers[l], now)
    else Enter(AddChild(w, p, l, child), child, now)
  }

  predicate CanFinish<T(==)>(w: World<T>) {
    w.stack != [] && |w.stack| == |w.starts| && w.stack[|w.stack| - 1] in w.info
  }

  /** `finish` of the innermost running handle. */
  function Finished<T>(w: World<T>, now: int): World<T>
    requires CanFinish(w)
  {
    var last := |w.stack| - 1;
    var t := w.stack[last];
    var data := w.info[t].data.Plus(Once(now - w.starts[last]));
    w.(info := w.info[t := w.info[t].(data := data)], stack := w.stack[..last], starts := w.starts[..last],
      clock := now)
  }

  // ----- Every transition keeps the invariant

  lemma AddChildKeepsTree<T>(w: World<T>, p: T, l: string, child: T)
    requires Tree(w.info, w.root) && p in w.info && l !in w.info[p].timers && child !in w.info
    ensures Tree(AddChild(w, p, l, child).info, w.root)
  {
    var info := AddChild(w, p, l, child).info;
    assert Placed(w.info, w.root, p);
    forall t | t in info ensures Placed(info, w.root, t) {
      if t != child {
        assert Placed(w.info, w.root, t);
      }
    }
  }

  /** A timer's sub-time depends only on which sub-timers it has and on their times. */
  lemma SameSubTime<T>(info: map<T, Info<T>>, info': map<T, Info<T>>, t: T)
    requires t in info && t in info' && info[t].timers == info'[t].timers
    requires forall l :: l in info[t].timers ==>
      var c := info[t].timers[l]; c in info && c in info' && info[c].data.totalTime == info'[c].data.totalTime
    ensures SubTime(info, t) == SubTime(info', t)
  {
    assert Times(info, t) == Times(info', t);
  }

  /** One sub-timer added or updated. */
  lemma SubTimeWithOne<T>(info: map<T, Info<T>>, info': map<T, Info<T>>, t: T, l: string, c: T)
    requires t in info && t in info' && c in info' && info'[t].timers == info[t].timers[l := c]
    requires l in info[t].timers ==> info[t].timers[l] == c && c in info
    requires forall k :: k in info[t].timers && k != l ==>
      var d := info[t].timers[k]; d in info && d in info' && info[d].data.totalTime == info'[d].data.totalTime
    ensures SubTime(info', t) == SubTime(info, t) + info'[c].data.totalTime
      - if l in info[t].timers then info[c].data.totalTime else 0
  {
    assert Times(info', t) == Times(info, t)[l := info'[c].data.totalTime];
    SumUpdated(Times(info, t), l, info'[c].data.totalTime);
  }

  lemma AddChildKeepsSubTime<T>(w: World<T>, p: T, l: string, child: T, t: T)
    requires Tree(w.info, w.root) && p in w.info && l !in w.info[p].timers && child !in w.info && t in w.info
    ensures SubTime(AddChild(w, p, l, child).info, t) == SubTime(w.info, t)
    ensures SubTime(AddChild(w, p, l, child).info, child) == 0
  {
    var info := AddChild(w, p, l, child).info;
    assert Placed(w.info, w.root, t);
    if t == p {
      SubTimeWithOne(w.info, info, p, l, child);
    } else {
      SameSubTime(w.info, info, t);
    }
    assert Times(info, child) == map[];
  }

  lemma AddChildKeeps<T>(w: World<T>, p: T, l: string, child: T)
    requires Inv(w) && p in w.info && l !in w.info[p].timers && child !in w.info
    ensures Inv(AddChild(w, p, l, child))
  {
    var w' := AddChild(w, p, l, child);
    AddChildKeepsTree(w, p, l, child);
    forall i: nat | i < |w'.stack| ensures Linked(w', i) {
      assert Linked(w, i) && Above(w', i) == Above(w, i);
    }
    forall i: nat | i <= |w'.stack| ensures Covered(w', i) {
      assert Covered(w, i) && Above(w', i) == Above(w, i);
      AddChildKeepsSubTime(w, p, l, child, Above(w, i));
    }
    forall t | t in w'.info && t != w'.root && t !in w'.stack ensures Settled(w'.info, t) {
      if t == child {
        AddChildKeepsSubTime(w, p, l, child, p);
      } else {
        assert Settled(w.info, t);
        AddChildKeepsSubTime(w, p, l, child, t);
      }
    }
  }

  lemma EnterKeepsCovered<T>(w: World<T>, t: T, now: int, i: nat)
    requires Inv(w) && w.clock <= now && i <= |w.stack|
    ensures Above(Enter(w, t, now), i) in w.info && Covered(Enter(w, t, now), i)
  {
    assert Covered(w, i) && Above(Enter(w, t, now), i) == Above(w, i);
  }

  lemma EnterKeeps<T>(w: World<T>, t: T, now: int)
    requires Inv(w) && w.clock <= now
    requires t in w.info && t != w.root && w.info[t].parent == Above(w, |w.stack|)
    ensures Inv(Enter(w, t, now))
  {
    var w' := Enter(w, t, now);
    var n := |w.stack|;
    AboveDistinct(w, n, n);
    assert Placed(w.info, w.root, t);
    forall i: nat | i <= n ensures Linked(w', i) {
      assert i < n ==> Linked(w, i) && Above(w', i) == Above(w, i);
    }
    forall i: nat | i < n ensures w.stack[i] != t {
      assert Linked(w, i);
    }
    assert Settled(w.info, t);
    forall i: nat | i <= n + 1 ensures Covered(w', i) {
      if i <= n {
        EnterKeepsCovered(w, t, now, i);
      }
    }
  }

  lemma PushKeeps<T>(w: World<T>, l: string, child: T, now: int)
    requires Inv(w) && w.clock <= now && Above(w, |w.stack|) in w.info
    requires l !in w.info[Above(w, |w.stack|)].timers ==> child !in w.info
    ensures Inv(Pushed(w, l, child, now))
  {
    var p := Above(w, |w.stack|);
    assert Placed(w.info, w.root, p);
    if l in w.info[p].timers {
      EnterKeeps(w, w.info[p].timers[l], now);
    } else {
      AddChildKeeps(w, p, l, child);
      EnterKeeps(AddChild(w, p, l, child), child, now);
    }
  }

  // ----- Which timer a label enters

  /** The timer on top of the stack is the sub-timer of the one below under the label pushed, and
      no other timer has changed its place. */
  lemma PushedIsLabelled<T>(w: World<T>, l: string, child: T, now: int)
    requires Inv(w) && Above(w, |w.stack|) in w.info
    requires l !in w.info[Above(w, |w.stack|)].timers ==> child !in w.info
    ensures var (p, w') := (Above(w, |w.stack|), Pushed(w, l, child, now));
      && |w'.stack| == |w.stack| + 1
      && var t := w'.stack[|w.stack|];
         && t in w'.info && w'.info[t].name == l && w'.info[t].parent == p
         && p in w'.info && w'.info[p].timers == w.info[p].timers[l := t]
         && (l in w.info[p].timers ==> w'.info == w.info)
         && (l !in w.info[p].timers ==> t == child && w'.info.Keys == w.info.Keys + {child})
  {
    assert Placed(w.info, w.root, Above(w, |w.stack|));
  }

  lemma FinishKeepsTree<T>(w: World<T>, now: int)
    requires Inv(w) && CanFinish(w)
    ensures Tree(Finished(w, now).info, w.root)
  {
    var info := Finished(w, now).info;
    forall t | t in info ensures Placed(info, w.root, t) {
      assert Placed(w.info, w.root, t);
    }
  }

  /** The time of the finished interval goes to the parent's sub-time, and nowhere else. */
  lemma FinishMovesSubTime<T>(w: World<T>, now: int, u: T)
    requires Inv(w) && CanFinish(w) && u in w.info
    ensures var last := |w.stack| - 1;
      SubTime(Finished(w, now).info, u)
        == SubTime(w.info, u) + if u == Above(w, last) then now - w.starts[last] else 0
  {
    var info, last := Finished(w, now).info, |w.stack| - 1;
    var t := w.stack[last];
    assert Placed(w.info, w.root, t) && Placed(w.info, w.root, u) && Linked(w, last);
    if u == Above(w, last) {
      var l := w.info[t].name;
      assert info[u].timers == w.info[u].timers[l := t];
      SubTimeWithOne(w.info, info, u, l, t);
    } else {
      assert forall l :: l in w.info[u].timers ==> w.info[u].timers[l] != t;
      SameSubTime(w.info, info, u);
    }
  }

  lemma FinishKeepsCovered<T>(w: World<T>, now: int, i: nat)
    requires Inv(w) && CanFinish(w) && w.clock <= now && i < |w.stack|
    ensures Above(Finished(w, now), i) in w.info && Covered(Finished(w, now), i)
  {
    var last := |w.stack| - 1;
    assert Covered(w, i) && Above(Finished(w, now), i) == Above(w, i);
    AboveDistinct(w, i, last);
    AboveDistinct(w, i, last + 1);
    FinishMovesSubTime(w, now, Above(w, i));
  }

  lemma FinishKeepsSettled<T>(w: World<T>, now: int, u: T)
    requires Inv(w) && CanFinish(w) && w.clock <= now
    requires u in w.info && u != w.root && u !in w.stack[..|w.stack| - 1]
    ensures u in Finished(w, now).info && Settled(Finished(w, now).info, u)
  {
    var last := |w.stack| - 1;
    var t := w.stack[last];
    FinishMovesSubTime(w, now, u);
    AboveDistinct(w, last, last + 1);
    assert last > 0 ==> Above(w, last) == w.stack[..last][last - 1];
    if u == t {
      assert Covered(w, last + 1);
    } else {
      assert w.stack == w.stack[..last] + [t];
      assert Settled(w.info, u);
    }
  }

  lemma FinishKeeps<T>(w: World<T>, now: int)
    requires Inv(w) && w.clock <= now && w.stack != []
    ensures CanFinish(w) && Inv(Finished(w, now))
  {
    assert Linked(w, |w.stack| - 1);
    var w' := Finished(w, now);
    FinishKeepsTree(w, now);
    forall i: nat | i < |w'.stack| ensures Linked(w', i) {
      assert Linked(w, i) && Above(w', i) == Above(w, i);
    }
    forall i: nat | i <= |w'.stack| ensures Covered(w', i) {
      FinishKeepsCovered(w, now, i);
    }
    forall u | u in w'.info && u != w'.root && u !in w'.stack ensures Settled(w'.info, u) {
      FinishKeepsSettled(w, now, u);
    }
    AboveDistinct(w, 0, |w.stack|);
  }

  /** No timer is on the stack twice, and the root is not on it. */
  lemma AboveDistinct<T>(w: World<T>, i: nat, j: nat)
    requires Tree(w.info, w.root) && Path(w) && i <= |w.stack| && j <= |w.stack|
    ensures Above(w, i) in w.info && w.info[Above(w, i)].depth == i
    ensures Above(w, i) == Above(w, j) ==> i == j
  {
    assert i > 0 ==> Linked(w, i - 1);
    assert j > 0 ==> Linked(w, j - 1);
  }

  /** Recognizing the state after the innermost timer `t` finished. */
  lemma FinishedState<T>(w: World<T>, w': World<T>, t: T, elapsed: int, now: int)
    requires Inv(w) && w.stack != [] && w.clock <= now
    requires w.stack[|w.stack| - 1] == t && elapsed == now - w.starts[|w.starts| - 1] && t in w.info
    requires w'.root == w.root && w'.startTime == w.startTime && w'.clock == now
    requires w'.info == w.info[t := w.info[t].(data := w.info[t].data.Plus(Once(elapsed)))]
    requires w'.stack == w.stack[..|w.stack| - 1] && w'.starts == w.starts[..|w.starts| - 1]
    ensures CanFinish(w) && w' == Finished(w, now) && Inv(w')
  {
    FinishKeeps(w, now);
  }

  // ----- Whole runs

  /** What happens in a well-nested run: a sub-timer is entered, created as `child` if its
      label is new, or the innermost running handle finishes. */
  datatype Event<T> = Push(name: string, child: T, now: int) | Finish(now: int)

  /** Times do not decrease, and a created timer is a new one. */
  predicate Enabled<T(==)>(w: World<T>, e: Event<T>) {
    && w.clock <= e.now
    && match e
       case Push(l, child, _) =>
         var p := Above(w, |w.stack|);
         p in w.info && (l !in w.info[p].timers ==> child !in w.info)
       case Finish(_) =>
         CanFinish(w)
  }

  function After<T(==)>(w: World<T>, e: Event<T>): World<T>
    requires Enabled(w, e)
  {
    match e
    case Push(l, child, now) => Pushed(w, l, child, now)
    case Finish(now) => Finished(w, now)
  }

  ghost predicate IsRun<T>(states: seq<World<T>>, events: seq<Event<T>>, root: T, now: int) {
    && |states| == |events| + 1 && states[0] == NewWorld(root, now)
    && forall k :: 0 <= k < |events| ==> Enabled(states[k], events[k]) && states[k + 1] == After(states[k], events[k])
  }

  lemma {:induction false} RunKeepsInv<T>(states: seq<World<T>>, events: seq<Event<T>>, root: T, now: int, n: nat)
    requires IsRun(states, events, root, now) && n < |states|
    ensures Inv(states[n])
  {
    if n == 0 {
      NewWorldIsFine(root, now);
    } else {
      RunKeepsInv(states, events, root, now, n - 1);
      var w := states[n - 1];
      match events[n - 1]
      case Push(l, child, time) => PushKeeps(w, l, child, time);
      case Finish(time) => FinishKeeps(w, time);
    }
  }

  lemma NewWorldIsFine<T>(root: T, now: int)
    ensures Inv(NewWorld(root, now))
  {
    var w := NewWorld(root, now);
    assert Times(w.info, root) == map[];
  }

  /** The main result, in every state of a well-nested run: the stack is a path of distinct
      timers below the root; a timer that does not run has accumulated at least what its
      sub-timers have; and everything measured fits in the time since the start. */
  lemma NestedTimeConserved<T>(states: seq<World<T>>, events: seq<Event<T>>, root: T, now: int, n: nat)
    requires IsRun(states, events, root, now) && n < |states|
    ensures var w := states[n];
      && Path(w) && w.root in w.info
      && (forall i, j :: 0 <= i < j < |w.stack| ==> w.stack[i] != w.stack[j])
      && w.root !in w.stack
      && (forall t :: t in w.info && t != w.root && t !in w.stack ==>
          SubTime(w.info, t) <= w.info[t].data.totalTime)
      && (w.stack == [] ==> SubTime(w.info, w.root) <= w.clock - w.startTime)
  {
    RunKeepsInv(states, events, root, now, n);
    var w := states[n];
    assert Covered(w, 0);
    forall i: nat | i < |w.stack| ensures w.stack[i] in w.info && w.info[w.stack[i]].depth == i + 1 {
      assert Linked(w, i);
    }
    forall t | t in w.info && t != w.root && t !in w.stack ensures SubTime(w.info, t) <= w.info[t].data.totalTime {
      assert Settled(w.info, t);
    }
  }

  // ----- One timer for one label

  /** Timers keep their places: what is found under a label stays there. */
  lemma StepKeepsTimers<T>(w: World<T>, e: Event<T>, p: T, l: string)
    requires Inv(w) && Enabled(w, e) && p in w.info && l in w.info[p].timers
    ensures p in After(w, e).info && l in After(w, e).info[p].timers
    ensures After(w, e).info[p].timers[l] == w.info[p].timers[l]
  {
  }

  lemma {:induction false} RunKeepsTimers<T>(states: seq<World<T>>, events: seq<Event<T>>, root: T, now: int,
      i: nat, j: nat, p: T, l: string)
    requires IsRun(states, events, root, now) && i <= j < |states|
    requires p in states[i].info && l in states[i].info[p].timers
    ensures p in states[j].info && l in states[j].info[p].timers
    ensures states[j].info[p].timers[l] == states[i].info[p].timers[l]
  {
    if i < j {
      RunKeepsTimers(states, events, root, now, i, j - 1, p, l);
      RunKeepsInv(states, events, root, now, j - 1);
      StepKeepsTimers(states[j - 1], events[j - 1], p, l);
    }
  }

  /** In a run, two pushes of one label under one timer enter the same timer. */
  lemma SameLabelSameTimer<T>(states: seq<World<T>>, events: seq<Event<T>>, root: T, now: int, i: nat, j: nat)
    requires IsRun(states, events, root, now) && i < j < |events|
    requires events[i].Push? && events[j].Push? && events[i].name == events[j].name
    requires Above(states[i], |states[i].stack|) == Above(states[j], |states[j].stack|)
    ensures states[i + 1].stack != [] && states[j + 1].stack != []
    ensures states[i + 1].stack[|states[i + 1].stack| - 1] == states[j + 1].stack[|states[j + 1].stack| - 1]
  {
    var p, l := Above(states[i], |states[i].stack|), events[i].name;
    RunKeepsInv(states, events, root, now, i);
    RunKeepsInv(states, events, root, now, j);
    assert states[i + 1] == After(states[i], events[i]) && states[j + 1] == After(states[j], events[j]);
    PushedIsLabelled(states[i], l, events[i].child, events[i].now);
    PushedIsLabelled(states[j], l, events[j].child, events[j].now);
    RunKeepsTimers(states, events, root, now, i + 1, j, p, l);
  }

  /** A place in the tree holds one timer. */
  lemma PlaceIsOne<T>(info: map<T, Info<T>>, root: T, t: T, u: T)
    requires Tree(info, root) && t in info && u in info && t != root && u != root
    requires info[t].parent == info[u].parent && info[t].name == info[u].name
    ensures t == u
  {
    assert Placed(info, root, t) && Placed(info, root, u);
  }

  // ----- The objects

  /** An object holds what the abstract state says. */
  ghost predicate HoldsIn(info: map<Timer, Info<Timer>>, t: Timer)
    requires t in info
    reads t`data, t`timers
  {
    t.data == info[t].data && t.timers == info[t].timers
  }

  ghost predicate HoldAll(info: map<Timer, Info<Timer>>)
    reads info.Keys`data, info.Keys`timers
  {
    forall t {:trigger HoldsIn(info, t)} :: t in info ==> HoldsIn(info, t)
  }

  class Timer {
    var startTime: int
    var data: TimeData
    var timers: map<string, Timer>
    var stack: seq<Timer>

    /** Of a top timer: the timers below it and their places, when the running ones were
        started, the last time seen, and the running handles. */
    ghost var info: map<Timer, Info<Timer>>
    ghost var starts: seq<int>
    ghost var clock: int
    ghost var running: seq<AutoTime>

    constructor (now: int)
      ensures Valid() && State() == NewWorld(this, now) && running == []
      ensures data == NO_TIME && timers == map[]
    {
      startTime, data, timers, stack := now, NO_TIME, map[], [];
      info, starts, clock, running := map[], [], now, [];
      new;
      info := NewWorld(this, now).info;
      NewWorldIsFine(this, now);
    }

    ghost function State(): World<Timer>
      reads this`info, this`stack, this`starts, this`startTime, this`clock
    {
      World(this, info, stack, starts, startTime, clock)
    }

    /** The first `n` running handles are distinct and belong to the timers on the stack. */
    ghost predicate HandlesTo(n: nat)
      requires n <= |running| && n <= |stack| && n <= |starts|
      reads this`stack, this`starts, this`running, running
    {
      && (forall i :: 0 <= i < n ==>
          running[i].topTimer == this && running[i].timer == stack[i] && running[i].start == starts[i] &&
          !running[i].added)
      && (forall i, j :: 0 <= i < j < n ==> running[i] != running[j])
    }

    ghost predicate Handles()
      reads this`stack, this`starts, this`running, running
    {
      |running| == |stack| == |starts| && HandlesTo(|running|)
    }

    ghost predicate Valid()
      reads this, info.Keys, running
    {
      HoldAll(info) && Handles() && Inv(State())
    }

    /** The sub-timer with a label, created when there is none (`try_emplace`). */
    method SubTimer(l: string, now: int, ghost w: World<Timer>) returns (timer: Timer)
      requires this in w.info && this == Above(w, |w.stack|) && HoldAll(w.info)
      modifies this`timers
      ensures l in old(timers) ==> timer == old(timers)[l]
      ensures l !in old(timers) ==> fresh(timer)
      ensures HoldAll(Pushed(w, l, timer, now).info)
    {
      assert HoldsIn(w.info, this);
      if l in timers {
        timer := timers[l];
      } else {
        timer := new Timer(now);
        timers := timers[l := timer];
        ghost var after := Pushed(w, l, timer, now).info;
        forall t | t in after ensures HoldsIn(after, t) {
          assert t in w.info ==> old(HoldsIn(w.info, t));
        }
      }
    }

    /** Put a timer on the stack and hand out its handle. */
    method Push(timer: Timer, now: int) returns (h: AutoTime)
      requires Handles()
      modifies this`stack, this`running, this`starts, this`clock
      ensures Handles()
      ensures fresh(h) && h.timer == timer && h.topTimer == this && h.start == now && !h.added
      ensures running == old(running) + [h]
      ensures stack == old(stack) + [timer] && starts == old(starts) + [now] && clock == now
    {
      stack := stack + [timer];
      h := new AutoTime(this, timer, now);
      running, starts, clock := running + [h], starts + [now], now;
    }

    /** `push_back`: enter the sub-timer with this label of the innermost running timer,
        creating it if there is none. */
    method PushBack(l: string, now: int) returns (h: AutoTime)
      requires Valid() && clock <= now
      modifies this, info.Keys
      ensures Valid()
      ensures fresh(h) && running == old(running) + [h]
      ensures Enabled(old(State()), Event.Push(l, h.timer, now))
      ensures State() == After(old(State()), Event.Push(l, h.timer, now))
      // The timer entered has this label and the innermost one above it; if there was one, it is that.
      ensures h.timer in info && info[h.timer].name == l && info[h.timer].parent == old(Above(State(), |stack|))
      ensures h.start == now && h.topTimer == this && stack == old(stack) + [h.timer]
      ensures var p := old(Above(State(), |stack|));
        p in old(info) && (l in old(info)[p].timers ==> h.timer == old(info)[p].timers[l])
    {
      hide Inv, HoldAll;
      var current := this;
      if stack != [] {
        current := stack[|stack| - 1];
      }
      ghost var w := State();
      CurrentKnown(current);
      var timer := current.SubTimer(l, now, w);
      PushKeeps(w, l, timer, now);
      PushedIsLabelled(w, l, timer, now);
      ghost var after := Pushed(w, l, timer, now).info;
      h := Push(timer, now);
      assert HoldAll(after);
      info := after;
      assert State() == Pushed(w, l, timer, now);
    }

    lemma CurrentKnown(current: Timer)
      requires Valid() && current == Above(State(), |stack|)
      ensures current in info && info[current].timers == current.timers
    {
      AboveDistinct(State(), |stack|, |stack|);
      assert HoldsIn(info, current);
    }

    /** `pop_back`: false stands for the exception, thrown when another timer is innermost. */
    method PopBack(expected: Timer) returns (ok: bool)
      requires stack != []
      modifies this`stack
      ensures ok <==> old(stack)[|old(stack)| - 1] == expected
      ensures stack == if ok then old(stack)[..|old(stack)| - 1] else old(stack)
    {
      if stack[|stack| - 1] != expected {
        return false;
      }
      stack := stack[..|stack| - 1];
      return true;
    }

    /** `accumulate`. */
    method Accumulate(time: TimeData)
      modifies this`data
      ensures data == old(data).Plus(time)
    {
      data := data.Plus(time);
    }

    /** Handle `h` is the innermost running one. */
    ghost predicate Innermost(h: AutoTime)
      reads this`running
    {
      running != [] && running[|running| - 1] == h
    }

    /** A running handle is the innermost one exactly when its timer is. */
    lemma PlaceOf(h: AutoTime)
      requires Valid() && h in running
      ensures h.timer in info && h.topTimer == this && stack != []
      ensures Innermost(h) <==> stack[|stack| - 1] == h.timer
      ensures Innermost(h) ==> starts != [] && starts[|starts| - 1] == h.start
    {
      var i :| 0 <= i < |running| && running[i] == h;
      AboveDistinct(State(), i + 1, |stack|);
    }

    /** Strike the innermost handle, whose timer was popped, from the books. */
    ghost method Strike(now: int, after: map<Timer, Info<Timer>>)
      requires |running| == |starts| == |stack| + 1 && HandlesTo(|stack|)
      modifies this`info, this`starts, this`clock, this`running
      ensures Handles()
      ensures info == after && clock == now && starts == old(starts)[..|old(starts)| - 1]
      ensures running == old(running)[..|old(running)| - 1]
    {
      info, starts, clock := after, starts[..|starts| - 1], now;
      running := running[..|running| - 1];
    }

    /** `total_sub_time`, whatever order the sub-timers are visited in. */
    method TotalSubTime(ghost top: Timer) returns (time: int)
      requires top.Valid() && this in top.info
      ensures time == SubTime(top.info, this)
    {
      assert HoldsIn(top.info, this) && Placed(top.info, top, this);
      ghost var times := Times(top.info, this);
      time := 0;
      var remaining := timers.Keys;
      assert times - (timers.Keys - remaining) == times;
      while remaining != {}
        invariant remaining <= timers.Keys
        invariant time + Sum(times - (timers.Keys - remaining)) == Sum(times)
        decreases remaining
      {
        var l :| l in remaining;
        SumWithout(times - (timers.Keys - remaining), l);
        assert times - (timers.Keys - remaining) - {l} == times - (timers.Keys - (remaining - {l}));
        assert HoldsIn(top.info, timers[l]);
        time := time + timers[l].data.totalTime;
        remaining := remaining - {l};
      }
      assert times - (timers.Keys - remaining) == map[];
    }
  }

  /** A scoped handle. */
  class AutoTime {
    const topTimer: Timer
    const timer: Timer
    const start: int
    var added: bool

    constructor (topTimer: Timer, timer: Timer, now: int)
      ensures this.topTimer == topTimer && this.timer == timer && start == now && !added
    {
      this.topTimer, this.timer, start, added := topTimer, timer, now, false;
    }

    /** Accumulate the interval in the timer; the books follow if they are kept. */
    method AddElapsed(elapsed: int, ghost kept: bool, ghost info: map<Timer, Info<Timer>>)
      returns (ghost after: map<Timer, Info<Timer>>)
      requires kept ==> timer in info && HoldAll(info)
      modifies timer`data
      ensures timer.data == old(timer.data).Plus(Once(elapsed))
      ensures kept ==>
        && HoldAll(after) && timer in info
        && after == info[timer := info[timer].(data := info[timer].data.Plus(Once(elapsed)))]
    {
      assert kept ==> HoldsIn(info, timer);
      timer.Accumulate(Once(elapsed));
      after := info;
      if kept {
        after := info[timer := info[timer].(data := info[timer].data.Plus(Once(elapsed)))];
        forall t | t in after ensures HoldsIn(after, t) {
          assert old(HoldsIn(info, t));
        }
      }
    }

    /** The books of the top timer are in order, and this handle is in them as a running one. */
    ghost predicate Kept(now: int)
      reads this, topTimer, topTimer.info.Keys, topTimer.running
    {
      !added && topTimer.Valid() && topTimer.clock <= now && this in topTimer.running
    }

    /** `finish`: the time since the start, and whether the pop went through. Only the first call
        on a handle has an effect: the time is accumulated, and then the timer is popped exactly
        if it is the innermost one. A pop keeps books that are in order, and it goes through
        exactly for the innermost running handle of those. After one that did not go through
        the books are out of order. */
    method Finish(now: int) returns (elapsed: int, ok: bool)
      requires added || topTimer.stack != []
      modifies this, topTimer, timer
      ensures elapsed == now - start && added
      ensures old(added) ==> ok && unchanged(this, topTimer, timer)
      ensures !old(added) ==> timer.data == old(timer.data).Plus(Once(elapsed))
      ensures !old(added) ==> (ok <==> old(topTimer.stack)[|old(topTimer.stack)| - 1] == timer)
      ensures !old(added) ==>
        topTimer.stack == if ok then old(topTimer.stack)[..|old(topTimer.stack)| - 1] else old(topTimer.stack)
      ensures old(Kept(now)) ==> (ok <==> old(topTimer.Innermost(this)))
      ensures old(Kept(now)) && ok ==>
        && topTimer.Valid() && topTimer.running == old(topTimer.running)[..|old(topTimer.running)| - 1]
        && Enabled(old(topTimer.State()), Event<Timer>.Finish(now))
        && topTimer.State() == After(old(topTimer.State()), Event<Timer>.Finish(now))
    {
      elapsed := now - start;
      ok := true;
      if !added {
        ghost var w, kept := topTimer.State(), Kept(now);
        if kept {
          topTimer.PlaceOf(this);
        }
        ok := FinishFirst(elapsed, now, kept);
        if kept && ok {
          FinishedState(w, topTimer.State(), timer, elapsed, now);
        }
      }
    }

    /** The first call: mark the handle, accumulate in its timer, and pop that timer. */
    method FinishFirst(elapsed: int, now: int, ghost kept: bool) returns (ok: bool)
      requires !added && topTimer.stack != []
      requires kept ==> topTimer.Handles() && timer in topTimer.info && HoldAll(topTimer.info)
      requires kept ==>
        && this in topTimer.running
        && (topTimer.Innermost(this) <==> topTimer.stack[|topTimer.stack| - 1] == timer)
      modifies this`added, topTimer, timer`data
      ensures added && timer.data == old(timer.data).Plus(Once(elapsed))
      ensures ok <==> old(topTimer.stack)[|old(topTimer.stack)| - 1] == timer
      ensures topTimer.stack == if ok then old(topTimer.stack)[..|old(topTimer.stack)| - 1] else old(topTimer.stack)
      ensures kept && ok ==>
        && topTimer.Handles() && HoldAll(topTimer.info)
        && topTimer.info == old(topTimer.info)[timer := old(topTimer.info)[timer].(
            data := old(topTimer.info)[timer].data.Plus(Once(elapsed)))]
        && topTimer.starts == old(topTimer.starts)[..|old(topTimer.starts)| - 1]
        && topTimer.running == old(topTimer.running)[..|old(topTimer.running)| - 1]
        && topTimer.startTime == old(topTimer.startTime) && topTimer.clock == now
    {
      added := true;
      ghost var after := AddElapsed(elapsed, kept, topTimer.info);
      ok := topTimer.PopBack(timer);
      if kept && ok {
        topTimer.Strike(now, after);
      }
    }
  }
}
