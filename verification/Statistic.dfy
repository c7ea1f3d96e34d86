/** Traffic counters under interleaving: atomic adds by trackers, a ticker that loads, publishes and clears. */
module Statistic {
  import opened Bytes

  /** A tracker `Write` or `Read` of `n` bytes on connection `conn`, between its three atomic additions. */
  datatype Phase = Started | InTemp | InTotal | Counted

  datatype Push = Push(conn: nat, n: nat, phase: Phase)

  /** The ticker on this direction: idle, after `temp.Load`, after `blip.Store`. */
  datatype Tick = Idle | Loaded(v: int) | Published(v: int)

  /** One direction of the manager. `published`, `window` and `lost` are history: the sum of all stored blips,
      the bytes added to `temp` since the current tick's load, and those wiped by a clear in such a window. */
  datatype Lane = Lane(temp: int, blip: int, total: int, conns: seq<int>, pushes: seq<Push>, tick: Tick,
                       published: int, window: int, lost: int)

  datatype LaneStep =
    | Connect                       // NewTCPTracker
    | Begin(conn: nat, n: nat)      // the connection transferred n bytes
    | AddTemp(i: nat)               // PushUploaded / PushDownloaded, first addition
    | AddTotal(i: nat)              //   second addition
    | AddConn(i: nat)               // the tracker's own total
    | Load | Publish | Clear        // one tick of the ticker

  const FRESH := Lane(0, 0, 0, [], [], Idle, 0, 0, 0)

  predicate Can(l: Lane, step: LaneStep) {
    match step
    case Connect => true
    case Begin(conn, n) => conn < |l.conns|
    case AddTemp(i) => i < |l.pushes| && l.pushes[i].phase == Started
    case AddTotal(i) => i < |l.pushes| && l.pushes[i].phase == InTemp
    case AddConn(i) => i < |l.pushes| && l.pushes[i].phase == InTotal && l.pushes[i].conn < |l.conns|
    case Load => l.tick == Idle
    case Publish => l.tick.Loaded?
    case Clear => l.tick.Published?
  }

  function Moved(l: Lane, i: nat, p: Phase): seq<Push>
    requires i < |l.pushes|
  {
    l.pushes[i := l.pushes[i].(phase := p)]
  }

  function Next(l: Lane, step: LaneStep): Lane
    requires Can(l, step)
  {
    match step
    case Connect => l.(conns := l.conns + [0])
    case Begin(conn, n) => l.(pushes := l.pushes + [Push(conn, n, Started)])
    case AddTemp(i) =>
      var n := l.pushes[i].n;
      l.(temp := l.temp + n, pushes := Moved(l, i, InTemp), window := if l.tick == Idle then 0 else l.window + n)
    case AddTotal(i) => l.(total := l.total + l.pushes[i].n, pushes := Moved(l, i, InTotal))
    case AddConn(i) =>
      var p := l.pushes[i];
      l.(conns := l.conns[p.conn := l.conns[p.conn] + p.n], pushes := Moved(l, i, Counted))
    case Load => l.(tick := Loaded(l.temp), window := 0)
    case Publish => l.(blip := l.tick.v, tick := Published(l.tick.v), published := l.published + l.tick.v)
    case Clear => l.(temp := 0, tick := Idle, lost := l.lost + l.window, window := 0)
  }

  // ----- sums -----

  function Sum(s: seq<int>): int {
    if s == [] then 0 else Sum(s[..|s| - 1]) + s[|s| - 1]
  }

  lemma SumSnoc(s: seq<int>, x: int)
    ensures Sum(s + [x]) == Sum(s) + x
  {
    assert (s + [x])[..|s|] == s;
  }

  lemma {:induction false} SumUpdate(s: seq<int>, i: nat, x: int)
    requires i < |s|
    ensures Sum(s[i := x]) == Sum(s) - s[i] + x
  {
    var front := s[..|s| - 1];
    if i == |s| - 1 {
      assert s[i := x][..|s| - 1] == front;
    } else {
      SumUpdate(front, i, x);
      assert s[i := x][..|s| - 1] == front[i := x];
    }
  }

  /** Bytes of the pushes that are in the given phase. */
  function At(pushes: seq<Push>, p: Phase): seq<int> {
    seq(|pushes|, i requires 0 <= i < |pushes| => if pushes[i].phase == p then pushes[i].n else 0)
  }

  function InPhase(pushes: seq<Push>, p: Phase): int {
    Sum(At(pushes, p))
  }

  lemma PhaseMoves(l: Lane, i: nat, to: Phase, p: Phase)
    requires i < |l.pushes| && l.pushes[i].phase != to
    ensures InPhase(Moved(l, i, to), p) == InPhase(l.pushes, p)
            + (if p == to then l.pushes[i].n else 0) - (if p == l.pushes[i].phase then l.pushes[i].n else 0)
  {
    var x := if p == to then l.pushes[i].n else 0;
    assert At(Moved(l, i, to), p) == At(l.pushes, p)[i := x];
    SumUpdate(At(l.pushes, p), i, x);
  }

  lemma PhaseStarts(pushes: seq<Push>, q: Push, p: Phase)
    requires q.phase != p
    ensures InPhase(pushes + [q], p) == InPhase(pushes, p)
  {
    assert At(pushes + [q], p) == At(pushes, p) + [0];
    SumSnoc(At(pushes, p), 0);
  }

  // ----- the invariant -----

  /** Bytes ever added to `temp`: what the totals have of them plus the pushes still between the two additions. */
  function Pushed(l: Lane): int {
    l.total + InPhase(l.pushes, InTemp)
  }

  ghost predicate Inv(l: Lane) {
    && (l.tick.Published? ==> Pushed(l) == l.published + l.window + l.lost)
    && (!l.tick.Published? ==> Pushed(l) == l.published + l.temp + l.lost)
    && (l.tick != Idle ==> l.temp == l.tick.v + l.window)
    && l.total == Sum(l.conns) + InPhase(l.pushes, InTotal)
  }

  lemma StepKeeps(l: Lane, step: LaneStep)
    requires Inv(l) && Can(l, step)
    ensures Inv(Next(l, step))
  {
    hide InPhase, Sum, Moved;
    match step
    case Connect => SumSnoc(l.conns, 0);
    case Begin(conn, n) =>
      PhaseStarts(l.pushes, Push(conn, n, Started), InTemp);
      PhaseStarts(l.pushes, Push(conn, n, Started), InTotal);
    case AddTemp(i) =>
      PhaseMoves(l, i, InTemp, InTemp);
      PhaseMoves(l, i, InTemp, InTotal);
    case AddTotal(i) =>
      PhaseMoves(l, i, InTotal, InTemp);
      PhaseMoves(l, i, InTotal, InTotal);
    case AddConn(i) =>
      PhaseMoves(l, i, Counted, InTemp);
      PhaseMoves(l, i, Counted, InTotal);
      SumUpdate(l.conns, l.pushes[i].conn, l.conns[l.pushes[i].conn] + l.pushes[i].n);
    case _ =>
  }

  // ----- the manager: both directions, one ticker -----

  datatype Manager = Manager(up: Lane, down: Lane)

  datatype Step = Up(s: LaneStep) | Down(s: LaneStep)

  /** One ticker serves both directions in turn: a direction's tick starts only while the other is idle. */
  predicate ManagerCan(m: Manager, step: Step) {
    match step
    case Up(s) => Can(m.up, s) && (s.Load? ==> m.down.tick == Idle)
    case Down(s) => Can(m.down, s) && (s.Load? ==> m.up.tick == Idle)
  }

  function ManagerNext(m: Manager, step: Step): Manager
    requires ManagerCan(m, step)
  {
    match step
    case Up(s) => m.(up := Next(m.up, s))
    case Down(s) => m.(down := Next(m.down, s))
  }

  ghost predicate IsRun(run: seq<Manager>, steps: seq<Step>) {
    && |run| == |steps| + 1 && run[0] == Manager(FRESH, FRESH)
    && forall i :: 0 <= i < |steps| ==> ManagerCan(run[i], steps[i]) && run[i + 1] == ManagerNext(run[i], steps[i])
  }

  lemma FreshHolds()
    ensures Inv(FRESH)
  {
  }

  lemma {:induction false} RunInv(run: seq<Manager>, steps: seq<Step>, i: nat)
    requires IsRun(run, steps) && i < |run|
    ensures Inv(run[i].up) && Inv(run[i].down)
  {
    hide Inv;
    if i == 0 {
      FreshHolds();
    } else {
      RunInv(run, steps, i - 1);
      match steps[i - 1]
      case Up(s) => StepKeeps(run[i - 1].up, s);
      case Down(s) => StepKeeps(run[i - 1].down, s);
    }
  }

  /** No tick is under way and every push is fully counted or not yet begun to be. */
  predicate Quiet(l: Lane) {
    l.tick == Idle && forall i :: 0 <= i < |l.pushes| ==> l.pushes[i].phase == Started || l.pushes[i].phase == Counted
  }

  lemma {:induction false} SumOfZeros(s: seq<int>)
    requires forall i :: 0 <= i < |s| ==> s[i] == 0
    ensures Sum(s) == 0
  {
    if s != [] {
      SumOfZeros(s[..|s| - 1]);
    }
  }

  lemma QuietPhases(l: Lane)
    requires Quiet(l)
    ensures InPhase(l.pushes, InTemp) == 0 && InPhase(l.pushes, InTotal) == 0
  {
    SumOfZeros(At(l.pushes, InTemp));
    SumOfZeros(At(l.pushes, InTotal));
  }

  /** Bytes that this step of the run adds to the `temp` of a direction between a tick's load and its clear. */
  function InWindow(m: Manager, step: Step, up: bool): nat
    requires ManagerCan(m, step)
  {
    match step
    case Up(s) => if up && s.AddTemp? && m.up.tick != Idle then m.up.pushes[s.i].n else 0
    case Down(s) => if !up && s.AddTemp? && m.down.tick != Idle then m.down.pushes[s.i].n else 0
  }

  /** The sum of these over the first `k` steps. */
  ghost function WindowBytes(run: seq<Manager>, steps: seq<Step>, up: bool, k: nat): nat
    requires IsRun(run, steps) && k <= |steps|
  {
    if k == 0 then 0 else WindowBytes(run, steps, up, k - 1) + InWindow(run[k - 1], steps[k - 1], up)
  }

  function LaneOf(m: Manager, up: bool): Lane {
    if up then m.up else m.down
  }

  lemma {:induction false} LostInWindows(run: seq<Manager>, steps: seq<Step>, up: bool, k: nat)
    requires IsRun(run, steps) && k <= |steps|
    ensures var l := LaneOf(run[k], up);
            l.lost + l.window == WindowBytes(run, steps, up, k) && (l.tick == Idle ==> l.window == 0)
  {
    if k > 0 {
      LostInWindows(run, steps, up, k - 1);
    }
  }

  lemma {:induction false} NoWindowBytes(run: seq<Manager>, steps: seq<Step>, up: bool, k: nat)
    requires IsRun(run, steps) && k <= |steps|
    ensures WindowBytes(run, steps, up, k) == 0 <==> forall j :: 0 <= j < k ==> InWindow(run[j], steps[j], up) == 0
  {
    if k > 0 {
      NoWindowBytes(run, steps, up, k - 1);
    }
  }

  function OfLane(step: Step, up: bool): Option<LaneStep> {
    match step
    case Up(s) => if up then Some(s) else None
    case Down(s) => if up then None else Some(s)
  }

  /** The sum of the blips that the first `k` steps stored: each is read where it was put. */
  ghost function BlipBytes(run: seq<Manager>, steps: seq<Step>, up: bool, k: nat): int
    requires IsRun(run, steps) && k <= |steps|
  {
    if k == 0 then 0
    else
      BlipBytes(run, steps, up, k - 1) +
      if OfLane(steps[k - 1], up) == Some(Publish) then LaneOf(run[k], up).blip else 0
  }

  lemma {:induction false} PublishedAreBlips(run: seq<Manager>, steps: seq<Step>, up: bool, k: nat)
    requires IsRun(run, steps) && k <= |steps|
    ensures LaneOf(run[k], up).published == BlipBytes(run, steps, up, k)
  {
    if k > 0 {
      PublishedAreBlips(run, steps, up, k - 1);
      assert run[k] == ManagerNext(run[k - 1], steps[k - 1]);
    }
  }

  /** In every interleaving of any number of trackers with the ticker, whenever a direction is quiet its total
      is the published blips, plus what is in `temp`, plus exactly the bytes that steps of the run added between
      some tick's load and its clear; so nothing is missing from the blips if and only if no step did. And the
      total is the sum of the connections' own totals. */
  lemma TotalsBalance(run: seq<Manager>, steps: seq<Step>, i: nat, up: bool)
    requires IsRun(run, steps) && i < |run| && Quiet(LaneOf(run[i], up))
    ensures var l := LaneOf(run[i], up);
            && l.total == Sum(l.conns)
            && l.total == BlipBytes(run, steps, up, i) + l.temp + WindowBytes(run, steps, up, i)
            && (l.total == BlipBytes(run, steps, up, i) + l.temp <==>
                forall j :: 0 <= j < i ==> InWindow(run[j], steps[j], up) == 0)
  {
    RunInv(run, steps, i);
    QuietPhases(LaneOf(run[i], up));
    LostInWindows(run, steps, up, i);
    NoWindowBytes(run, steps, up, i);
    PublishedAreBlips(run, steps, up, i);
  }

  /** The one ticker is never in the middle of both directions. */
  lemma {:induction false} OneTickAtATime(run: seq<Manager>, steps: seq<Step>, i: nat)
    requires IsRun(run, steps) && i < |run|
    ensures run[i].up.tick == Idle || run[i].down.tick == Idle
  {
    if i > 0 {
      OneTickAtATime(run, steps, i - 1);
    }
  }

  // ----- what a blip shows -----

  lemma {:induction false} LoadKept(run: seq<Manager>, steps: seq<Step>, up: bool, k: nat, j: nat)
    requires IsRun(run, steps) && k < j < |run| && OfLane(steps[k], up) == Some(Load)
    requires forall i :: k < i < j ==> OfLane(steps[i], up) != Some(Load)
    ensures LaneOf(run[j], up).tick.Loaded? ==> LaneOf(run[j], up).tick.v == LaneOf(run[k], up).temp
    decreases j
  {
    if j > k + 1 {
      LoadKept(run, steps, up, k, j - 1);
    }
  }

  lemma {:induction false} BlipKept(run: seq<Manager>, steps: seq<Step>, up: bool, j: nat, i: nat)
    requires IsRun(run, steps) && j <= i < |run|
    requires forall x :: j <= x < i ==> OfLane(steps[x], up) != Some(Publish)
    ensures LaneOf(run[i], up).blip == LaneOf(run[j], up).blip
    decreases i
  {
    if j < i {
      BlipKept(run, steps, up, j, i - 1);
    }
  }

  /** What a direction shows as its blip, until the next is stored, is what `temp` held at the load before it. */
  lemma BlipIsLastLoad(run: seq<Manager>, steps: seq<Step>, up: bool, k: nat, j: nat, i: nat)
    requires IsRun(run, steps) && k < j < i < |run|
    requires OfLane(steps[k], up) == Some(Load) && OfLane(steps[j], up) == Some(Publish)
    requires forall x :: k < x < j ==> OfLane(steps[x], up) != Some(Load)
    requires forall x :: j < x < i ==> OfLane(steps[x], up) != Some(Publish)
    ensures LaneOf(run[i], up).blip == LaneOf(run[k], up).temp
  {
    LoadKept(run, steps, up, k, j);
    BlipKept(run, steps, up, j + 1, i);
  }

  // ----- what is counted -----

  /** The transfers that the first `k` steps began, in order. */
  function Transfers(steps: seq<Step>, up: bool, k: nat): seq<(nat, nat)>
    requires k <= |steps|
  {
    if k == 0 then []
    else
      var s := OfLane(steps[k - 1], up);
      Transfers(steps, up, k - 1) + (if s.Some? && s.value.Begin? then [(s.value.conn, s.value.n)] else [])
  }

  lemma {:induction false} PushesAreTransfers(run: seq<Manager>, steps: seq<Step>, up: bool, k: nat)
    requires IsRun(run, steps) && k <= |steps|
    ensures var l, ts := LaneOf(run[k], up), Transfers(steps, up, k);
            |l.pushes| == |ts| && forall i :: 0 <= i < |ts| ==> ts[i] == (l.pushes[i].conn, l.pushes[i].n)
  {
    if k > 0 {
      PushesAreTransfers(run, steps, up, k - 1);
      assert run[k] == ManagerNext(run[k - 1], steps[k - 1]);
    }
  }

  /** Bytes of the fully counted pushes of one connection. */
  function OfConn(pushes: seq<Push>, c: nat): seq<int> {
    seq(|pushes|, i requires 0 <= i < |pushes| =>
      if pushes[i].phase == Counted && pushes[i].conn == c then pushes[i].n else 0)
  }

  ghost predicate Accounts(l: Lane) {
    && l.total == InPhase(l.pushes, InTotal) + InPhase(l.pushes, Counted)
    && (forall c {:trigger l.conns[c]} :: 0 <= c < |l.conns| ==> l.conns[c] == Sum(OfConn(l.pushes, c)))
    && (forall i {:trigger l.pushes[i]} :: 0 <= i < |l.pushes| ==> l.pushes[i].conn < |l.conns|)
  }

  lemma ConnMoves(l: Lane, i: nat, to: Phase, c: nat)
    requires i < |l.pushes| && l.pushes[i].phase != Counted
    ensures Sum(OfConn(Moved(l, i, to), c)) ==
            Sum(OfConn(l.pushes, c)) + (if to == Counted && l.pushes[i].conn == c then l.pushes[i].n else 0)
  {
    var x := if to == Counted && l.pushes[i].conn == c then l.pushes[i].n else 0;
    assert OfConn(Moved(l, i, to), c) == OfConn(l.pushes, c)[i := x];
    SumUpdate(OfConn(l.pushes, c), i, x);
  }

  lemma ConnStarts(pushes: seq<Push>, q: Push, c: nat)
    requires q.phase == Started
    ensures Sum(OfConn(pushes + [q], c)) == Sum(OfConn(pushes, c))
  {
    assert OfConn(pushes + [q], c) == OfConn(pushes, c) + [0];
    SumSnoc(OfConn(pushes, c), 0);
  }

  lemma NoneCounted(pushes: seq<Push>, c: nat)
    requires forall i :: 0 <= i < |pushes| ==> pushes[i].conn != c
    ensures Sum(OfConn(pushes, c)) == 0
  {
    SumOfZeros(OfConn(pushes, c));
  }

  lemma ConnsAccount(l: Lane, step: LaneStep)
    requires Accounts(l) && Can(l, step)
    ensures var t := Next(l, step);
            && (forall c {:trigger t.conns[c]} :: 0 <= c < |t.conns| ==> t.conns[c] == Sum(OfConn(t.pushes, c)))
            && (forall i {:trigger t.pushes[i]} :: 0 <= i < |t.pushes| ==> t.pushes[i].conn < |t.conns|)
  {
    hide InPhase, Sum, OfConn;
    var t := Next(l, step);
    forall c | 0 <= c < |t.conns| ensures t.conns[c] == Sum(OfConn(t.pushes, c)) {
      match step
      case Connect =>
        if c == |l.conns| {
          NoneCounted(l.pushes, c);
        }
      case Begin(conn, n) => ConnStarts(l.pushes, Push(conn, n, Started), c);
      case AddTemp(i) => ConnMoves(l, i, InTemp, c);
      case AddTotal(i) => ConnMoves(l, i, InTotal, c);
      case AddConn(i) => ConnMoves(l, i, Counted, c);
      case _ =>
    }
  }

  lemma StepAccounts(l: Lane, step: LaneStep)
    requires Accounts(l) && Can(l, step)
    ensures Accounts(Next(l, step))
  {
    ConnsAccount(l, step);
    hide InPhase, Sum, Moved, OfConn;
    match step
    case Begin(conn, n) =>
      PhaseStarts(l.pushes, Push(conn, n, Started), InTotal);
      PhaseStarts(l.pushes, Push(conn, n, Started), Counted);
    case AddTemp(i) =>
      PhaseMoves(l, i, InTemp, InTotal);
      PhaseMoves(l, i, InTemp, Counted);
    case AddTotal(i) =>
      PhaseMoves(l, i, InTotal, InTotal);
      PhaseMoves(l, i, InTotal, Counted);
    case AddConn(i) =>
      PhaseMoves(l, i, Counted, InTotal);
      PhaseMoves(l, i, Counted, Counted);
    case _ =>
  }

  lemma FreshAccounts()
    ensures Accounts(FRESH)
  {
  }

  /** In every run the total of a direction is the bytes of the transfers that have reached it, each connection's own
      total the bytes of its transfers that are fully counted, and the transfers are those the steps began. */
  lemma {:induction false} TotalsAreTransfers(run: seq<Manager>, steps: seq<Step>, up: bool, i: nat)
    requires IsRun(run, steps) && i < |run|
    ensures var l, ts := LaneOf(run[i], up), Transfers(steps, up, i);
            && l.total == InPhase(l.pushes, InTotal) + InPhase(l.pushes, Counted)
            && (forall c :: 0 <= c < |l.conns| ==> l.conns[c] == Sum(OfConn(l.pushes, c)))
            && |l.pushes| == |ts| && (forall k :: 0 <= k < |ts| ==> ts[k] == (l.pushes[k].conn, l.pushes[k].n))
  {
    LaneAccounts(run, steps, up, i);
    PushesAreTransfers(run, steps, up, i);
  }

  lemma {:induction false} LaneAccounts(run: seq<Manager>, steps: seq<Step>, up: bool, i: nat)
    requires IsRun(run, steps) && i < |run|
    ensures Accounts(LaneOf(run[i], up))
  {
    hide Accounts;
    if i == 0 {
      FreshAccounts();
    } else {
      LaneAccounts(run, steps, up, i - 1);
      var s := OfLane(steps[i - 1], up);
      if s.Some? {
        StepAccounts(LaneOf(run[i - 1], up), s.value);
      }
    }
  }

  /** At any moment, quiet or not, the total differs from the connections' totals by the pushes in between. */
  lemma TotalsTrackConnections(run: seq<Manager>, steps: seq<Step>, i: nat)
    requires IsRun(run, steps) && i < |run|
    ensures run[i].up.total == Sum(run[i].up.conns) + InPhase(run[i].up.pushes, InTotal)
    ensures run[i].down.total == Sum(run[i].down.conns) + InPhase(run[i].down.pushes, InTotal)
  {
    RunInv(run, steps, i);
  }

  /** A push of `n` bytes whose first addition falls between a tick's load and its clear. */
  function LossSteps(n: nat): seq<LaneStep> {
    [Connect, Begin(0, n), Load, AddTemp(0), Publish, Clear, AddTotal(0), AddConn(0)]
  }

  function LossLanes(n: nat): seq<Lane> {
    var p := Push(0, n, Started);
    var l3 := Lane(0, 0, 0, [0], [p], Loaded(0), 0, 0, 0);
    var l6 := Lane(0, 0, 0, [0], [p.(phase := InTemp)], Idle, 0, 0, n);
    [FRESH,
     FRESH.(conns := [0]),
     FRESH.(conns := [0], pushes := [p]),
     l3,
     l3.(temp := n, pushes := [p.(phase := InTemp)], window := n),
     l3.(temp := n, pushes := [p.(phase := InTemp)], window := n, tick := Published(0)),
     l6,
     l6.(total := n, pushes := [p.(phase := InTotal)]),
     l6.(total := n, pushes := [p.(phase := Counted)], conns := [n as int])]
  }

  lemma LossTrace(n: nat, i: nat)
    requires i < 8
    ensures Can(LossLanes(n)[i], LossSteps(n)[i]) && LossLanes(n)[i + 1] == Next(LossLanes(n)[i], LossSteps(n)[i])
  {
  }

  /** The window is real: a push of any size that lands inside it never shows in a blip. */
  lemma BytesCanBeLost(n: nat) returns (run: seq<Manager>, steps: seq<Step>)
    requires n > 0
    ensures IsRun(run, steps)
    ensures var l := run[|run| - 1].up; Quiet(l) && l.total == n && l.temp == 0
    ensures BlipBytes(run, steps, true, |steps|) == 0
  {
    var lanes, moves := LossLanes(n), LossSteps(n);
    run := seq(9, i requires 0 <= i < 9 => Manager(lanes[i], FRESH));
    steps := seq(8, i requires 0 <= i < 8 => Up(moves[i]));
    forall i | 0 <= i < 8 ensures ManagerCan(run[i], steps[i]) && run[i + 1] == ManagerNext(run[i], steps[i]) {
      LossTrace(n, i);
    }
    assert lanes[0] == FRESH && lanes[8].tick == Idle && lanes[8].pushes == [Push(0, n, Counted)];
    PublishedAreBlips(run, steps, true, 8);
  }

  // ----- everything under way can be finished -----

  /** These steps lead from one state to the other. */
  ghost predicate Leads(m: Manager, steps: seq<Step>, t: Manager)
    decreases |steps|
  {
    if steps == [] then t == m else ManagerCan(m, steps[0]) && Leads(ManagerNext(m, steps[0]), steps[1..], t)
  }

  function PhaseLeft(p: Phase): nat {
    match p
    case Started => 3
    case InTemp => 2
    case InTotal => 1
    case Counted => 0
  }

  function PushesLeft(pushes: seq<Push>): nat {
    if pushes == [] then 0 else PushesLeft(pushes[..|pushes| - 1]) + PhaseLeft(pushes[|pushes| - 1].phase)
  }

  function TickLeft(t: Tick): nat {
    match t
    case Loaded(_) => 2
    case Published(_) => 1
    case Idle => 0
  }

  function LaneLeft(l: Lane): nat {
    PushesLeft(l.pushes) + TickLeft(l.tick)
  }

  lemma {:induction false} LeftMoves(pushes: seq<Push>, i: nat, p: Phase)
    requires i < |pushes|
    ensures PushesLeft(pushes[i := pushes[i].(phase := p)]) ==
            PushesLeft(pushes) + PhaseLeft(p) - PhaseLeft(pushes[i].phase)
  {
    var front, moved := pushes[..|pushes| - 1], pushes[i := pushes[i].(phase := p)];
    if i == |pushes| - 1 {
      assert moved[..|pushes| - 1] == front;
    } else {
      LeftMoves(front, i, p);
      assert moved[..|pushes| - 1] == front[i := front[i].(phase := p)];
    }
  }

  lemma {:induction false} NothingLeft(pushes: seq<Push>)
    ensures PushesLeft(pushes) == 0 ==> forall i :: 0 <= i < |pushes| ==> pushes[i].phase == Counted
    ensures PushesLeft(pushes) > 0 ==> exists i :: 0 <= i < |pushes| && pushes[i].phase != Counted
  {
    if pushes != [] {
      NothingLeft(pushes[..|pushes| - 1]);
      assert forall i :: 0 <= i < |pushes| - 1 ==> pushes[..|pushes| - 1][i] == pushes[i];
    }
  }

  lemma Forward(l: Lane) returns (s: LaneStep)
    requires Accounts(l) && LaneLeft(l) > 0
    ensures Can(l, s) && !s.Load? && LaneLeft(Next(l, s)) < LaneLeft(l)
  {
    NothingLeft(l.pushes);
    if i :| 0 <= i < |l.pushes| && l.pushes[i].phase != Counted {
      match l.pushes[i].phase {
        case Started =>
          s := AddTemp(i);
          LeftMoves(l.pushes, i, InTemp);
        case InTemp =>
          s := AddTotal(i);
          LeftMoves(l.pushes, i, InTotal);
        case InTotal =>
          s := AddConn(i);
          LeftMoves(l.pushes, i, Counted);
      }
    } else {
      s := if l.tick.Loaded? then Publish else Clear;
    }
  }

  lemma {:induction false} Finish(m: Manager, up: bool) returns (steps: seq<Step>, t: Manager)
    requires Accounts(LaneOf(m, up))
    ensures Leads(m, steps, t) && LaneLeft(LaneOf(t, up)) == 0
    decreases LaneLeft(LaneOf(m, up))
  {
    hide Accounts, LaneLeft, Can, Next;
    if LaneLeft(LaneOf(m, up)) == 0 {
      steps, t := [], m;
    } else {
      var s := Forward(LaneOf(m, up));
      var step := if up then Up(s) else Down(s);
      StepAccounts(LaneOf(m, up), s);
      steps, t := Finish(ManagerNext(m, step), up);
      assert ([step] + steps)[1..] == steps;
      steps := [step] + steps;
    }
  }

  /** From every reachable state there are steps after which no tick of a direction is under way and every transfer is
      fully counted. */
  lemma QuietPossible(run: seq<Manager>, steps: seq<Step>, i: nat, up: bool) returns (more: seq<Step>, t: Manager)
    requires IsRun(run, steps) && i < |run|
    ensures Leads(run[i], more, t) && LaneOf(t, up).tick == Idle
    ensures forall k :: 0 <= k < |LaneOf(t, up).pushes| ==> LaneOf(t, up).pushes[k].phase == Counted
  {
    LaneAccounts(run, steps, up, i);
    more, t := Finish(run[i], up);
    NothingLeft(LaneOf(t, up).pushes);
  }
}
