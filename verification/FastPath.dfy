/**
  The identifier fast path: one goroutine per lookup group, a wait group, a
  channel with room for every result, and a main thread that waits, closes the
  channel and drains it. Any enabled thread may take the next step.
  */
module FastPath {
  import opened Store
  import opened Sums

  datatype Group = Group(resourceType: string, matchField: string, authorizedCount: nat, hiddenCount: nat)

  datatype Worker =
    | NotStarted
    | Searching
    | Sending
    | Sent
    | Finished

  datatype Summary = Summary(groups: seq<Group>, authorized: int, hidden: int)

  datatype Main =
    | Adding(i: nat)
    | Launching(i: nat)
    | Waiting
    | Closing
    | Draining(summary: Summary)
    | Returned(outcome: Result<Summary>)

  datatype State = State(main: Main, workers: seq<Worker>, wg: int, buffer: seq<Result<Group>>, closed: bool)

  datatype Action = MainStep | WorkerStep(i: nat)

  /** `results[i]` is what the search for group `i` returns. */
  predicate Enabled(s: State, a: Action, results: seq<Result<Group>>) {
    match a
    case MainStep => !s.main.Returned? && (s.main.Waiting? ==> s.wg == 0)
    case WorkerStep(i) =>
      i < |s.workers| == |results| &&
      match s.workers[i]
      case Searching => true
      case Sending => |s.buffer| < |results| && !s.closed
      case Sent => true
      case _ => false
  }

  function MainNext(s: State, results: seq<Result<Group>>): State {
    match s.main
    case Adding(i) =>
      if i < |results| then s.(wg := s.wg + 1, main := Launching(i)) else s.(main := Waiting)
    case Launching(i) =>
      if i < |s.workers| then s.(workers := s.workers[i := Searching], main := Adding(i + 1)) else s
    case Waiting => s.(main := Closing)
    case Closing => s.(closed := true, main := Draining(Summary([], 0, 0)))
    case Draining(sum) =>
      if s.buffer == [] then s.(main := Returned(Ok(sum)))
      else
        var rest := s.(buffer := s.buffer[1..]);
        if s.buffer[0].Err? then rest.(main := Returned(Err(s.buffer[0].error)))
        else
          var g := s.buffer[0].value;
          rest.(main := Draining(Summary(sum.groups + [g], sum.authorized + g.authorizedCount, sum.hidden + g.hiddenCount)))
    case Returned(_) => s
  }

  function WorkerNext(s: State, i: nat, results: seq<Result<Group>>): State
    requires i < |s.workers| == |results|
  {
    match s.workers[i]
    case Searching => s.(workers := s.workers[i := Sending])
    case Sending => s.(workers := s.workers[i := Sent], buffer := s.buffer + [results[i]])
    case Sent => s.(workers := s.workers[i := Finished], wg := s.wg - 1)
    case _ => s
  }

  function Step(s: State, a: Action, results: seq<Result<Group>>): State
    requires Enabled(s, a, results)
  {
    match a
    case MainStep => MainNext(s, results)
    case WorkerStep(i) => WorkerNext(s, i, results)
  }

  function Init(results: seq<Result<Group>>): State {
    State(Adding(0), seq(|results|, i => NotStarted), 0, [], false)
  }

  ghost predicate CanRun(s: State, acts: seq<Action>, results: seq<Result<Group>>)
    decreases |acts|
  {
    acts == [] || (Enabled(s, acts[0], results) && CanRun(Step(s, acts[0], results), acts[1..], results))
  }

  ghost function After(s: State, acts: seq<Action>, results: seq<Result<Group>>): State
    requires CanRun(s, acts, results)
    decreases |acts|
  {
    if acts == [] then s else After(Step(s, acts[0], results), acts[1..], results)
  }

  // ----- counting workers -----

  function Active(w: Worker): int { if w.Searching? || w.Sending? || w.Sent? then 1 else 0 }

  function Unsent(w: Worker): int { if w.Sent? || w.Finished? then 0 else 1 }

  function Rank(w: Worker): int {
    match w
    case NotStarted => 3
    case Searching => 3
    case Sending => 2
    case Sent => 1
    case Finished => 0
  }

  /** What the workers that have sent have put into the channel. */
  function SentBag(ws: seq<Worker>, results: seq<Result<Group>>): multiset<Result<Group>>
    requires |ws| == |results|
  {
    if ws == [] then multiset{}
    else
      var n := |ws| - 1;
      SentBag(ws[..n], results[..n]) + if Unsent(ws[n]) == 0 then multiset{results[n]} else multiset{}
  }

  lemma {:induction false} UpdateSum(ws: seq<Worker>, i: nat, w: Worker, f: Worker -> int)
    requires i < |ws|
    ensures Sum(ws[i := w], f) == Sum(ws, f) - f(ws[i]) + f(w)
  {
    var n := |ws| - 1;
    if i < n {
      UpdateSum(ws[..n], i, w, f);
      assert ws[i := w][..n] == ws[..n][i := w];
    } else {
      assert ws[i := w][..n] == ws[..n];
    }
  }

  lemma {:induction false} UpdateBag(ws: seq<Worker>, i: nat, w: Worker, results: seq<Result<Group>>)
    requires i < |ws| == |results| && (Unsent(ws[i]) == Unsent(w) || (Unsent(ws[i]) == 1 && Unsent(w) == 0))
    ensures SentBag(ws[i := w], results) ==
            SentBag(ws, results) + if Unsent(ws[i]) == Unsent(w) then multiset{} else multiset{results[i]}
  {
    var n := |ws| - 1;
    if i < n {
      UpdateBag(ws[..n], i, w, results[..n]);
      assert ws[i := w][..n] == ws[..n][i := w];
    } else {
      assert ws[i := w][..n] == ws[..n];
    }
  }

  /** Results not yet sent are missing from the bag, one by one. */
  lemma {:induction false} BagSize(ws: seq<Worker>, results: seq<Result<Group>>)
    requires |ws| == |results|
    ensures |SentBag(ws, results)| + Sum(ws, Unsent) == |ws|
    ensures Sum(ws, Unsent) == 0 ==> SentBag(ws, results) == multiset(results)
  {
    if ws != [] {
      var n := |ws| - 1;
      BagSize(ws[..n], results[..n]);
      SumNonNegative(ws[..n], Unsent);
      assert results == results[..n] + [results[n]];
    }
  }

  // ----- the invariant -----

  function Oks(gs: seq<Group>): seq<Result<Group>> {
    seq(|gs|, i requires 0 <= i < |gs| => Ok(gs[i]))
  }

  function AuthorizedOf(r: Result<Group>): int { if r.Ok? then r.value.authorizedCount else 0 }

  function HiddenOf(r: Result<Group>): int { if r.Ok? then r.value.hiddenCount else 0 }

  ghost predicate AllFinished(ws: seq<Worker>) {
    forall j | 0 <= j < |ws| :: ws[j].Finished?
  }

  ghost predicate MainInv(s: State, results: seq<Result<Group>>)
    requires |s.workers| == |results|
  {
    match s.main
    case Adding(i) =>
      i <= |results| && !s.closed && s.wg == Sum(s.workers, Active)
      && forall j | 0 <= j < |results| :: s.workers[j].NotStarted? <==> j >= i
    case Launching(i) =>
      i < |results| && !s.closed && s.wg == Sum(s.workers, Active) + 1
      && forall j | 0 <= j < |results| :: s.workers[j].NotStarted? <==> j >= i
    case Waiting =>
      !s.closed && s.wg == Sum(s.workers, Active) && forall j | 0 <= j < |s.workers| :: !s.workers[j].NotStarted?
    case Closing => !s.closed && s.wg == 0 && AllFinished(s.workers)
    case Draining(sum) =>
      && s.closed && s.wg == 0 && AllFinished(s.workers)
      && multiset(s.buffer) + multiset(Oks(sum.groups)) == multiset(results)
      && sum.authorized == Sum(Oks(sum.groups), AuthorizedOf)
      && sum.hidden == Sum(Oks(sum.groups), HiddenOf)
    case Returned(outcome) =>
      && s.closed && s.wg == 0 && AllFinished(s.workers)
      && match outcome
         case Err(e) => Err(e) in results
         case Ok(sum) => multiset(Oks(sum.groups)) == multiset(results)
                         && sum.authorized == Sum(Oks(sum.groups), AuthorizedOf)
                         && sum.hidden == Sum(Oks(sum.groups), HiddenOf)
  }

  ghost predicate Inv(s: State, results: seq<Result<Group>>) {
    && |s.workers| == |results|
    && (!s.closed ==> multiset(s.buffer) == SentBag(s.workers, results))
    && |s.buffer| <= |results|
    && MainInv(s, results)
  }

  lemma {:induction false} AllUnstarted(n: nat)
    ensures var ws := seq(n, i => NotStarted); Sum(ws, Active) == 0 && Sum(ws, Unsent) == n
  {
    if n > 0 {
      AllUnstarted(n - 1);
      assert seq(n, i => NotStarted)[..n - 1] == seq(n - 1, i => NotStarted);
    }
  }

  lemma InitInv(results: seq<Result<Group>>)
    ensures Inv(Init(results), results)
  {
    AllUnstarted(|results|);
    BagSize(Init(results).workers, results);
  }

  lemma LaunchKeepsInv(s: State, results: seq<Result<Group>>)
    requires Inv(s, results) && s.main.Launching?
    ensures Inv(MainNext(s, results), results)
  {
    UpdateSum(s.workers, s.main.i, Searching, Active);
    UpdateBag(s.workers, s.main.i, Searching, results);
  }

  lemma WaitKeepsInv(s: State, results: seq<Result<Group>>)
    requires Inv(s, results) && s.main.Waiting? && s.wg == 0
    ensures Inv(MainNext(s, results), results)
  {
    SumNonNegative(s.workers, Active);
    forall j | 0 <= j < |s.workers|
      ensures s.workers[j].Finished?
    {
      assert s.workers[j] in s.workers;
      assert Active(s.workers[j]) == 0;
    }
  }

  lemma CloseKeepsInv(s: State, results: seq<Result<Group>>)
    requires Inv(s, results) && s.main.Closing?
    ensures Inv(MainNext(s, results), results)
  {
    NothingUnsent(s.workers);
    BagSize(s.workers, results);
    assert Oks([]) == [];
  }

  lemma DrainKeepsInv(s: State, results: seq<Result<Group>>)
    requires Inv(s, results) && s.main.Draining?
    ensures Inv(MainNext(s, results), results)
  {
    var sum := s.main.summary;
    if s.buffer != [] {
      var r := s.buffer[0];
      assert s.buffer == [r] + s.buffer[1..];
      assert multiset(s.buffer) == multiset{r} + multiset(s.buffer[1..]);
      assert r in multiset(results);
      if r.Ok? {
        assert Oks(sum.groups + [r.value]) == Oks(sum.groups) + [r];
        assert Oks(sum.groups + [r.value])[..|sum.groups|] == Oks(sum.groups);
      }
    }
  }

  lemma MainKeepsInv(s: State, results: seq<Result<Group>>)
    requires Inv(s, results) && Enabled(s, MainStep, results)
    ensures Inv(MainNext(s, results), results)
  {
    match s.main
    case Adding(_) =>
    case Launching(_) => LaunchKeepsInv(s, results);
    case Waiting => WaitKeepsInv(s, results);
    case Closing => CloseKeepsInv(s, results);
    case Draining(_) => DrainKeepsInv(s, results);
    case Returned(_) =>
  }

  lemma {:induction false} NothingUnsent(ws: seq<Worker>)
    requires AllFinished(ws)
    ensures Sum(ws, Unsent) == 0
  {
    if ws != [] {
      NothingUnsent(ws[..|ws| - 1]);
    }
  }

  lemma SendKeepsBuffer(s: State, i: nat, results: seq<Result<Group>>)
    requires Inv(s, results) && i < |s.workers| && !s.closed
    requires s.workers[i].Searching? || s.workers[i].Sending? || s.workers[i].Sent?
    ensures var s' := WorkerNext(s, i, results);
            && multiset(s'.buffer) == SentBag(s'.workers, results)
            && |s'.buffer| <= |results|
  {
    var s' := WorkerNext(s, i, results);
    UpdateBag(s.workers, i, s'.workers[i], results);
    BagSize(s'.workers, results);
    SumNonNegative(s'.workers, Unsent);
    assert |multiset(s'.buffer)| == |s'.buffer|;
  }

  lemma WorkerKeepsInv(s: State, i: nat, results: seq<Result<Group>>)
    requires Inv(s, results) && Enabled(s, WorkerStep(i), results)
    ensures Inv(WorkerNext(s, i, results), results)
  {
    UpdateSum(s.workers, i, WorkerNext(s, i, results).workers[i], Active);
    SendKeepsBuffer(s, i, results);
  }

  lemma {:induction false} RunKeepsInv(s: State, acts: seq<Action>, results: seq<Result<Group>>)
    requires Inv(s, results) && CanRun(s, acts, results)
    ensures Inv(After(s, acts, results), results)
    decreases |acts|
  {
    if acts != [] {
      match acts[0] {
        case MainStep => MainKeepsInv(s, results);
        case WorkerStep(i) => WorkerKeepsInv(s, i, results);
      }
      RunKeepsInv(Step(s, acts[0], results), acts[1..], results);
    }
  }

  // ----- safety of the channel -----

  /**
    In every reachable state: a worker about to send finds room and an open
    channel, and once the channel is closed every worker has finished.
    */
  lemma SendsNeverBlock(results: seq<Result<Group>>, acts: seq<Action>)
    requires CanRun(Init(results), acts, results)
    ensures var s := After(Init(results), acts, results);
            && |s.workers| == |results|
            && (forall i | 0 <= i < |results| && s.workers[i].Sending? :: |s.buffer| < |results| && !s.closed)
            && (s.closed ==> AllFinished(s.workers))
  {
    InitInv(results);
    RunKeepsInv(Init(results), acts, results);
    var s := After(Init(results), acts, results);
    BagSize(s.workers, results);
    forall i | 0 <= i < |results| && s.workers[i].Sending?
      ensures |s.buffer| < |results| && !s.closed
    {
      assert s.workers[i] in s.workers;
      SumNonNegative(s.workers, Unsent);
      assert |multiset(s.buffer)| == |s.buffer|;
    }
  }

  // ----- termination -----

  /** Work left: every step of every thread lowers it. */
  function Measure(s: State): int {
    var n := |s.workers|;
    Sum(s.workers, Rank) +
    match s.main
    case Adding(i) => 2 * (n - i) + n + 4
    case Launching(i) => 2 * (n - i) + n + 3
    case Waiting => n + 3
    case Closing => n + 2
    case Draining(_) => |s.buffer| + 1
    case Returned(_) => 0
  }

  lemma MeasureIsNatural(s: State, results: seq<Result<Group>>)
    requires Inv(s, results)
    ensures Measure(s) >= 0
  {
    SumNonNegative(s.workers, Rank);
  }

  lemma MeasureDecreases(s: State, a: Action, results: seq<Result<Group>>)
    requires Inv(s, results) && Enabled(s, a, results)
    ensures Measure(Step(s, a, results)) < Measure(s)
  {
    match a
    case WorkerStep(i) =>
      UpdateSum(s.workers, i, WorkerNext(s, i, results).workers[i], Rank);
    case MainStep =>
      if s.main.Launching? {
        UpdateSum(s.workers, s.main.i, Searching, Rank);
      }
  }

  /** Until the main thread has returned, some thread can move. */
  lemma NeverStuck(s: State, results: seq<Result<Group>>)
    requires Inv(s, results) && !s.main.Returned?
    ensures exists a :: Enabled(s, a, results)
  {
    if Enabled(s, MainStep, results) {
    } else if forall w | w in s.workers :: Active(w) == 0 {
      NoActiveSum(s.workers);
    } else {
      var w :| w in s.workers && Active(w) != 0;
      var i :| 0 <= i < |s.workers| && s.workers[i] == w;
      BagSize(s.workers, results);
      SumNonNegative(s.workers, Unsent);
      assert |multiset(s.buffer)| == |s.buffer|;
      assert Enabled(s, WorkerStep(i), results);
    }
  }

  lemma {:induction false} NoActiveSum(ws: seq<Worker>)
    requires forall w | w in ws :: Active(w) == 0
    ensures Sum(ws, Active) == 0
  {
    if ws != [] {
      NoActiveSum(ws[..|ws| - 1]);
    }
  }

  lemma {:induction false} RunsAreShort(s: State, acts: seq<Action>, results: seq<Result<Group>>)
    requires Inv(s, results) && CanRun(s, acts, results)
    ensures |acts| + Measure(After(s, acts, results)) <= Measure(s)
    ensures Measure(After(s, acts, results)) >= 0
    decreases |acts|
  {
    if acts == [] {
      MeasureIsNatural(s, results);
    } else {
      MeasureDecreases(s, acts[0], results);
      match acts[0] {
        case MainStep => MainKeepsInv(s, results);
        case WorkerStep(i) => WorkerKeepsInv(s, i, results);
      }
      RunsAreShort(Step(s, acts[0], results), acts[1..], results);
    }
  }

  /**
    The fan-in always finishes: no run is longer than the initial measure, and
    a run that cannot be continued is one whose main thread has returned.
    */
  lemma EveryRunFinishes(results: seq<Result<Group>>, acts: seq<Action>)
    requires CanRun(Init(results), acts, results)
    ensures |acts| <= Measure(Init(results))
    ensures (forall a :: !Enabled(After(Init(results), acts, results), a, results))
            ==> After(Init(results), acts, results).main.Returned?
  {
    InitInv(results);
    RunKeepsInv(Init(results), acts, results);
    RunsAreShort(Init(results), acts, results);
    var s := After(Init(results), acts, results);
    if !s.main.Returned? {
      NeverStuck(s, results);
    }
  }

  // ----- the outcome does not depend on the schedule -----

  function ReasonCode(authorized: int, hidden: int): string {
    if authorized > 0 then "VISIBLE_RESULTS"
    else if hidden > 0 then "MATCHES_EXIST_BUT_NOT_VISIBLE"
    else "NO_MATCH_IN_TENANT"
  }

  /** The reason code says whether some group shows a row, or else hides one. */
  lemma ReasonTellsTheTruth(results: seq<Result<Group>>)
    ensures var code := ReasonCode(Sum(results, AuthorizedOf), Sum(results, HiddenOf));
            var shown, hid := (exists r :: r in results && r.Ok? && r.value.authorizedCount > 0),
                              (exists r :: r in results && r.Ok? && r.value.hiddenCount > 0);
            && (code == "VISIBLE_RESULTS" <==> shown)
            && (code == "MATCHES_EXIST_BUT_NOT_VISIBLE" <==> !shown && hid)
            && (code == "NO_MATCH_IN_TENANT" <==> !shown && !hid)
  {
    PositiveIff(results, AuthorizedOf);
    PositiveIff(results, HiddenOf);
    assert forall r: Result<Group> :: AuthorizedOf(r) > 0 <==> r.Ok? && r.value.authorizedCount > 0;
    assert forall r: Result<Group> :: HiddenOf(r) > 0 <==> r.Ok? && r.value.hiddenCount > 0;
  }

  lemma {:induction false} PositiveIff(results: seq<Result<Group>>, f: Result<Group> -> int)
    requires forall r :: f(r) >= 0
    ensures Sum(results, f) >= 0
    ensures Sum(results, f) > 0 <==> exists r :: r in results && f(r) > 0
  {
    if results != [] {
      var n := |results| - 1;
      PositiveIff(results[..n], f);
      assert results == results[..n] + [results[n]];
    }
  }

  /**
    When the main thread returns, it succeeds exactly if every group succeeded;
    then the groups are a permutation of the per-group results, the totals are
    those of the results in plan order, and the reason code says whether any of
    them shows or hides a row. Otherwise it returns the error of a failed group.
    */
  lemma OutcomeIsScheduleFree(results: seq<Result<Group>>, acts: seq<Action>)
    requires CanRun(Init(results), acts, results) && After(Init(results), acts, results).main.Returned?
    ensures var outcome := After(Init(results), acts, results).main.outcome;
            && (outcome.Ok? <==> forall r | r in results :: r.Ok?)
            && (outcome.Err? ==> Err(outcome.error) in results)
            && (outcome.Ok? ==>
                  && multiset(Oks(outcome.value.groups)) == multiset(results)
                  && outcome.value.authorized == Sum(results, AuthorizedOf)
                  && outcome.value.hidden == Sum(results, HiddenOf)
                  && var code := ReasonCode(outcome.value.authorized, outcome.value.hidden);
                     && (code == "VISIBLE_RESULTS" <==> exists r :: r in results && r.Ok? && r.value.authorizedCount > 0)
                     && (code == "NO_MATCH_IN_TENANT" <==>
                           forall r | r in results && r.Ok? :: r.value.authorizedCount == 0 && r.value.hiddenCount == 0))
  {
    InitInv(results);
    ReasonTellsTheTruth(results);
    RunKeepsInv(Init(results), acts, results);
    var outcome := After(Init(results), acts, results).main.outcome;
    if outcome.Ok? {
      var oks := Oks(outcome.value.groups);
      SumPermutation(oks, results, AuthorizedOf);
      SumPermutation(oks, results, HiddenOf);
      forall r | r in results
        ensures r.Ok?
      {
        assert r in multiset(oks);
      }
    }
  }
}
