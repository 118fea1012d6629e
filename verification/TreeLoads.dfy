/**
 Tree loads on the page: each load takes a number, awaits its fetch, and applies its payload only
 if nothing overtook it. Responses and resumptions come in any order.
 */
module TreeLoads {
  import opened Prelude

  type Payload = string

  datatype TreeError = InvalidRange | Unsynced | FetchFailed(code: string)

  datatype Response = Body(payload: Payload) | Problem(code: string)

  /** Awaiting the fetch; the fetch has returned; the load has returned. */
  datatype Phase = Fetching | Fetched(result: Option<Payload>) | Returned(applied: bool, result: Option<Payload>)

  datatype Flight = Flight(seq_: nat, epoch: nat, phase: Phase)

  /** The page's shared state, the loads by number, and the numbers applied so far. */
  datatype State = State(fetchSeq: nat, loadSeq: nat, navEpoch: nat, tree: Option<Payload>, error: Option<TreeError>,
                         loads: map<nat, Flight>, applied: seq<nat>)

  datatype Action =
    | Load(validWindow: bool)
    | Unavailable
    | Gesture
    | Respond(n: nat, response: Response)
    | Resume(n: nat)

  // ----- The steps -----

  function Next(s: State, a: Action): State {
    match a
    case Load(valid) => Started(s, valid)
    case Unavailable =>
      s.(loadSeq := s.loadSeq + 1, fetchSeq := s.fetchSeq + 1, tree := None, error := Some(Unsynced))
    case Gesture => s.(navEpoch := s.navEpoch + 1)
    case Respond(n, response) =>
      if n in s.loads && s.loads[n].phase.Fetching? then Responded(s, n, response) else s
    case Resume(n) =>
      if n in s.loads && s.loads[n].phase.Fetched? then Resumed(s, n) else s
  }

  /** The synchronous start of a load: an invalid window ends it, otherwise its fetch goes out. */
  function Started(s: State, valid: bool): State {
    var t := s.(loadSeq := s.loadSeq + 1, fetchSeq := s.fetchSeq + 1);
    if !valid then t.(error := Some(InvalidRange), tree := None)
    else t.(error := None, loads := t.loads[t.loadSeq := Flight(t.fetchSeq, s.navEpoch, Fetching)])
  }

  /** The fetch returns: a stale one is dropped, a current one clears or sets the error. */
  function Responded(s: State, n: nat, response: Response): State
    requires n in s.loads
  {
    var current := s.loads[n].seq_ == s.fetchSeq;
    var result := if current && response.Body? then Some(response.payload) else None;
    var error := if !current then s.error else if response.Body? then None else Some(FetchFailed(response.code));
    s.(error := error, loads := s.loads[n := s.loads[n].(phase := Fetched(result))])
  }

  /** The load continues after its fetch. */
  function Resumed(s: State, n: nat): State
    requires n in s.loads && s.loads[n].phase.Fetched?
  {
    var flight := s.loads[n];
    var result := flight.phase.result;
    var applies := n == s.loadSeq && flight.epoch == s.navEpoch && result.Some?;
    var t := s.(loads := s.loads[n := flight.(phase := Returned(applies, result))]);
    if n != s.loadSeq then t
    else if flight.epoch != s.navEpoch then t.(error := None)
    else if result.Some? then t.(tree := result, applied := s.applied + [n])
    else t
  }

  function At(s: State, run: seq<Action>, i: nat): State
    requires i <= |run|
  {
    if i == 0 then s else Next(At(s, run, i - 1), run[i - 1])
  }

  // ----- What every reachable state satisfies -----

  predicate Rising(s: seq<nat>) {
    forall i, j :: 0 <= i < j < |s| ==> s[i] < s[j]
  }

  /** Only the newest load can still hold the newest fetch number. */
  ghost predicate FlightOk(s: State, n: nat)
    requires n in s.loads
  {
    var f := s.loads[n];
    && 0 < n <= s.loadSeq && f.seq_ <= s.fetchSeq && f.epoch <= s.navEpoch
    && (n < s.loadSeq ==> f.seq_ < s.fetchSeq)
    && (n == s.loadSeq ==> f.seq_ == s.fetchSeq)
  }

  ghost predicate Inv(s: State) {
    && (forall n :: n in s.loads ==> FlightOk(s, n))
    && Rising(s.applied)
    && (forall i :: 0 <= i < |s.applied| ==>
          s.applied[i] in s.loads && s.loads[s.applied[i]].phase.Returned? && s.loads[s.applied[i]].phase.applied)
    && (s.tree.Some? ==>
          s.applied != [] && s.loads[s.applied[|s.applied| - 1]].phase.result == s.tree)
  }

  lemma FreshPage(s: State)
    requires s.loads == map[] && s.applied == [] && s.tree.None?
    ensures Inv(s)
  {
  }

  lemma OvertakeKeepsFlights(s: State, t: State)
    requires forall n :: n in s.loads ==> FlightOk(s, n)
    requires t.loadSeq == s.loadSeq + 1 && t.fetchSeq == s.fetchSeq + 1 && t.navEpoch == s.navEpoch
    ensures forall n :: n in s.loads && n in t.loads && t.loads[n] == s.loads[n] ==> FlightOk(t, n)
  {
    forall n | n in s.loads && n in t.loads && t.loads[n] == s.loads[n] ensures FlightOk(t, n) {
      assert FlightOk(s, n);
    }
  }

  lemma StartKeepsInv(s: State, valid: bool)
    requires Inv(s)
    ensures Inv(Started(s, valid))
  {
    var t := Started(s, valid);
    OvertakeKeepsFlights(s, t);
    forall n | n in s.loads ensures n != s.loadSeq + 1 {
      assert FlightOk(s, n);
    }
  }

  lemma RespondKeepsInv(s: State, n: nat, response: Response)
    requires Inv(s) && n in s.loads && s.loads[n].phase.Fetching?
    ensures Inv(Responded(s, n, response))
  {
    var t := Responded(s, n, response);
    forall m | m in t.loads ensures FlightOk(t, m) {
      assert FlightOk(s, m);
    }
  }

  lemma ResumeKeepsInv(s: State, n: nat)
    requires Inv(s) && n in s.loads && s.loads[n].phase.Fetched?
    ensures Inv(Resumed(s, n))
  {
    var t := Resumed(s, n);
    forall m | m in t.loads ensures FlightOk(t, m) {
      assert FlightOk(s, m);
    }
    forall i | 0 <= i < |s.applied| ensures s.applied[i] <= s.loadSeq && s.applied[i] != n {
      assert FlightOk(s, s.applied[i]);
    }
  }

  lemma StepKeepsInv(s: State, a: Action)
    requires Inv(s)
    ensures Inv(Next(s, a))
  {
    match a
    case Load(valid) => StartKeepsInv(s, valid);
    case Unavailable => OvertakeKeepsFlights(s, Next(s, a));
    case Gesture =>
    case Respond(n, response) => if n in s.loads && s.loads[n].phase.Fetching? { RespondKeepsInv(s, n, response); }
    case Resume(n) => if n in s.loads && s.loads[n].phase.Fetched? { ResumeKeepsInv(s, n); }
  }

  lemma {:induction false} RunKeepsInv(s: State, run: seq<Action>, i: nat)
    requires Inv(s) && i <= |run|
    ensures Inv(At(s, run, i))
  {
    hide Inv, Next;
    if i > 0 {
      RunKeepsInv(s, run, i - 1);
      StepKeepsInv(At(s, run, i - 1), run[i - 1]);
    }
  }

  // ----- Newest load wins -----

  /** Once a newer load has started, an older one writes neither the tree nor its error. */
  lemma OlderLoadWritesNothing(s: State, a: Action)
    requires Inv(s) && (a.Respond? || a.Resume?) && a.n < s.loadSeq
    ensures Next(s, a).tree == s.tree && Next(s, a).error == s.error && Next(s, a).applied == s.applied
  {
    if a.n in s.loads {
      assert FlightOk(s, a.n);
    }
  }

  /** Over any run: applied numbers strictly increase, and the tree shown is the last one applied. */
  lemma AppliedNumbersIncrease(s: State, run: seq<Action>, i: nat)
    requires Inv(s) && i <= |run|
    ensures Rising(At(s, run, i).applied)
    ensures var t := At(s, run, i);
            t.tree.Some? ==>
              && t.applied != [] && t.applied[|t.applied| - 1] in t.loads
              && t.loads[t.applied[|t.applied| - 1]].phase == Returned(true, t.tree)
  {
    hide Next;
    RunKeepsInv(s, run, i);
  }

  // ----- When a load returns true -----

  predicate Overtakes(a: Action) {
    a.Load? || a.Unavailable?
  }

  lemma CounterStep(s: State, a: Action)
    ensures Next(s, a).loadSeq == s.loadSeq + if Overtakes(a) then 1 else 0
    ensures Next(s, a).fetchSeq == s.fetchSeq + if Overtakes(a) then 1 else 0
    ensures Next(s, a).navEpoch == s.navEpoch + if a.Gesture? then 1 else 0
  {
  }

  /** Counters stand still over a stretch of a run exactly when no step moves them. */
  lemma {:induction false} CountersStill(s: State, run: seq<Action>, i: nat, j: nat)
    requires i <= j <= |run|
    ensures At(s, run, i).loadSeq <= At(s, run, j).loadSeq
    ensures At(s, run, j).fetchSeq - At(s, run, i).fetchSeq == At(s, run, j).loadSeq - At(s, run, i).loadSeq
    ensures At(s, run, i).navEpoch <= At(s, run, j).navEpoch
    ensures At(s, run, i).loadSeq == At(s, run, j).loadSeq <==> forall t :: i <= t < j ==> !Overtakes(run[t])
    ensures At(s, run, i).navEpoch == At(s, run, j).navEpoch <==> forall t :: i <= t < j ==> !run[t].Gesture?
    decreases j
  {
    hide Next;
    if i < j {
      CountersStill(s, run, i, j - 1);
      CounterStep(At(s, run, j - 1), run[j - 1]);
    }
  }

  ghost predicate Ahead(p: Phase, q: Phase) {
    match p
    case Fetching => true
    case Fetched(r) => q == p || (q.Returned? && q.result == r)
    case Returned(_, _) => q == p
  }

  /** A load keeps its numbers, and its phase only moves forward. */
  lemma {:induction false} FlightAdvances(s: State, run: seq<Action>, i: nat, j: nat, n: nat)
    requires Inv(s) && i <= j <= |run| && n in At(s, run, i).loads
    ensures n in At(s, run, j).loads
    ensures At(s, run, j).loads[n].seq_ == At(s, run, i).loads[n].seq_
    ensures At(s, run, j).loads[n].epoch == At(s, run, i).loads[n].epoch
    ensures Ahead(At(s, run, i).loads[n].phase, At(s, run, j).loads[n].phase)
    decreases j
  {
    hide Next, Inv;
    if i < j {
      FlightAdvances(s, run, i, j - 1, n);
      RunKeepsInv(s, run, j - 1);
      FlightStep(At(s, run, j - 1), run[j - 1], n);
    }
  }

  lemma FlightStep(s: State, a: Action, n: nat)
    requires Inv(s) && n in s.loads
    ensures n in Next(s, a).loads
    ensures Next(s, a).loads[n].seq_ == s.loads[n].seq_ && Next(s, a).loads[n].epoch == s.loads[n].epoch
    ensures Ahead(s.loads[n].phase, Next(s, a).loads[n].phase)
  {
    assert FlightOk(s, n);
  }

  /**
   A load started at `i`, answered at `j` and resumed at `k` returns true exactly when its answer
   was a payload and no load, jump or gesture came in between; then the tree is that payload.
   */
  lemma ReturnsTrueExactly(s: State, run: seq<Action>, i: nat, j: nat, k: nat)
    requires Inv(s) && i < j < k < |run| && run[i] == Load(true)
    requires var n := At(s, run, i).loadSeq + 1;
             && run[j].Respond? && run[j].n == n && run[k] == Resume(n)
             && n in At(s, run, j).loads && At(s, run, j).loads[n].phase.Fetching?
             && n in At(s, run, k).loads && At(s, run, k).loads[n].phase.Fetched?
    ensures var n, end := At(s, run, i).loadSeq + 1, At(s, run, k + 1);
            && n in end.loads && end.loads[n].phase.Returned?
            && (end.loads[n].phase.applied <==>
                  run[j].response.Body? && forall t :: i < t < k ==> !Overtakes(run[t]) && !run[t].Gesture?)
            && (end.loads[n].phase.applied ==> end.tree == Some(run[j].response.payload))
  {
    hide Next, Inv;
    var n := At(s, run, i).loadSeq + 1;
    StartOf(s, run, i);
    FlightAdvances(s, run, i + 1, j, n);
    FlightAdvances(s, run, i + 1, k, n);
    AnswerOf(s, run, j, n);
    FlightAdvances(s, run, j + 1, k, n);
    CountersStill(s, run, i + 1, j);
    CountersStill(s, run, i + 1, k);
    ResumeOf(s, run, k, n);
  }

  lemma StartOf(s: State, run: seq<Action>, i: nat)
    requires i < |run| && run[i] == Load(true)
    ensures var t, n := At(s, run, i + 1), At(s, run, i).loadSeq + 1;
            && t.loadSeq == n && n in t.loads && t.loads[n] == Flight(t.fetchSeq, t.navEpoch, Fetching)
  {
  }

  lemma AnswerOf(s: State, run: seq<Action>, j: nat, n: nat)
    requires j < |run| && run[j].Respond? && run[j].n == n
    requires n in At(s, run, j).loads && At(s, run, j).loads[n].phase.Fetching?
    ensures n in At(s, run, j + 1).loads
    ensures At(s, run, j + 1).loads[n].phase ==
            Fetched(if At(s, run, j).loads[n].seq_ == At(s, run, j).fetchSeq && run[j].response.Body?
                    then Some(run[j].response.payload) else None)
  {
  }

  lemma ResumeOf(s: State, run: seq<Action>, k: nat, n: nat)
    requires k < |run| && run[k] == Resume(n)
    requires n in At(s, run, k).loads && At(s, run, k).loads[n].phase.Fetched?
    ensures var t, end := At(s, run, k), At(s, run, k + 1);
            && n in end.loads && end.loads[n].phase.Returned?
            && (end.loads[n].phase.applied <==>
                  n == t.loadSeq && t.loads[n].epoch == t.navEpoch && t.loads[n].phase.result.Some?)
            && (end.loads[n].phase.applied ==> end.tree == t.loads[n].phase.result)
  {
  }
}
