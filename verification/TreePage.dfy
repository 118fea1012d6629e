/** The page's shared state object, updated across the awaits of its tree loads. */
module TreePage {
  import opened Prelude
  import opened TreeLoads

  class Page {
    var fetchSeq: nat
    var loadSeq: nat
    var navEpoch: nat
    var tree: Option<Payload>
    var error: Option<TreeError>
    var loads: map<nat, Flight>
    ghost var applied: seq<nat>

    constructor ()
      ensures Inv(Contents()) && loadSeq == 0 && tree == None && error == None
    {
      fetchSeq, loadSeq, navEpoch, tree, error, loads, applied := 0, 0, 0, None, None, map[], [];
      new;
      FreshPage(Contents());
    }

    ghost function Contents(): State
      reads this
    {
      State(fetchSeq, loadSeq, navEpoch, tree, error, loads, applied)
    }

    /** `loadTree` up to its await; an invalid window returns at once. */
    method StartLoad(validWindow: bool) returns (myLoad: nat)
      requires Inv(Contents())
      modifies this
      ensures Contents() == Next(old(Contents()), Load(validWindow)) && Inv(Contents())
      ensures myLoad == loadSeq > old(loadSeq)
      ensures validWindow ==> tree == old(tree) && error == None
      ensures !validWindow ==> tree == None && error == Some(InvalidRange) && loads == old(loads)
      ensures forall n :: n in old(loads) ==> n < myLoad && n in loads && loads[n] == old(loads)[n]
    {
      StepKeepsInv(Contents(), Load(validWindow));
      hide Inv;
      loadSeq := loadSeq + 1;
      myLoad := loadSeq;
      fetchSeq := fetchSeq + 1;
      if !validWindow {
        error, tree := Some(InvalidRange), None;
      } else {
        error := None;
        loads := loads[myLoad := Flight(fetchSeq, navEpoch, Fetching)];
      }
    }

    /** A jump to an unavailable target drops whatever is in flight. */
    method JumpUnavailable()
      requires Inv(Contents())
      modifies this
      ensures Contents() == Next(old(Contents()), Unavailable) && Inv(Contents())
      ensures forall n :: n in loads ==> n < loadSeq && loads[n].seq_ < fetchSeq
    {
      StepKeepsInv(Contents(), Unavailable);
      hide Inv;
      loadSeq, fetchSeq := loadSeq + 1, fetchSeq + 1;
      tree, error := None, Some(Unsynced);
    }

    /** The rest of `fetchJson` once the response is in. */
    method FetchReturns(n: nat, response: Response)
      requires Inv(Contents()) && n in loads && loads[n].phase.Fetching?
      modifies this
      ensures Contents() == Next(old(Contents()), Respond(n, response)) && Inv(Contents())
      ensures tree == old(tree)
      ensures n < loadSeq ==> error == old(error) && loads[n].phase == Fetched(None)
      ensures n == loadSeq && response.Body? ==> error == None && loads[n].phase == Fetched(Some(response.payload))
    {
      StepKeepsInv(Contents(), Respond(n, response));
      hide Inv;
      var result: Option<Payload> := None;
      if loads[n].seq_ == fetchSeq {
        if response.Body? {
          error, result := None, Some(response.payload);
        } else {
          error := Some(FetchFailed(response.code));
        }
      }
      loads := loads[n := loads[n].(phase := Fetched(result))];
    }

    /** The rest of `loadTree` once its fetch has returned. */
    method ResumeLoad(n: nat) returns (won: bool)
      requires Inv(Contents()) && n in loads && loads[n].phase.Fetched?
      modifies this
      ensures Contents() == Next(old(Contents()), Resume(n)) && Inv(Contents())
      ensures won <==> n == old(loadSeq) && old(loads[n].epoch) == old(navEpoch) && old(loads[n].phase.result.Some?)
      ensures won ==> tree == old(loads[n].phase.result)
      ensures !won ==> tree == old(tree)
      ensures n < old(loadSeq) ==> !won && error == old(error)
    {
      StepKeepsInv(Contents(), Resume(n));
      hide Inv;
      var flight := loads[n];
      var result := flight.phase.result;
      won := false;
      if n == loadSeq {
        if flight.epoch != navEpoch {
          error := None;
        } else if result.Some? {
          tree, won := result, true;
          applied := applied + [n];
        }
      }
      loads := loads[n := flight.(phase := Returned(won, result))];
    }
  }
}
