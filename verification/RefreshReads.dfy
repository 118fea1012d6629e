/**
 Where a snapshot's headers come from, with no assumption on Core at all: each was served by the
 chain that was active at its own read.
 */
module RefreshReads {
  import opened Prelude
  import opened NbitsTable
  import opened Chain
  import opened HeaderStore
  import opened CacheShape
  import opened RefreshProtocol
  import opened RefreshSafety

  ghost predicate ServedBy(core: Block, h: CoreHeader) {
    0 <= h.height <= Height(core) && h == HeaderAt(core, h.height)
  }

  /** At moment `m` refresh `id`, opened on `opening`, read `h` from the active chain. */
  ghost predicate ReadThen(w: World, actions: seq<Action>, m: nat, id: nat, opening: CoreHeader, h: CoreHeader)
    requires m < |actions|
  {
    && actions[m] == Advances(id)
    && id in Moment(w, actions, m).jobs && Moment(w, actions, m).jobs[id].Gathering?
    && Moment(w, actions, m).jobs[id].opening == opening
    && ServedBy(Moment(w, actions, m).core, h)
  }

  ghost predicate ReadBefore(w: World, actions: seq<Action>, i: nat, id: nat, opening: CoreHeader, h: CoreHeader)
    requires i <= |actions|
  {
    exists m :: 0 <= m < i && ReadThen(w, actions, m, id, opening, h)
  }

  /** Every header gathered so far was read while its own refresh was gathering. */
  ghost predicate AllRead(w: World, actions: seq<Action>, i: nat, id: nat, j: Job)
    requires i <= |actions|
  {
    match j
    case Gathering(_, opening, _, _, finals, shallow) => HeadersRead(w, actions, i, id, opening, finals, shallow)
    case Confirmed(_, p) => HeadersRead(w, actions, i, id, p.horizon, p.finals, p.shallow)
    case _ => true
  }

  ghost predicate HeadersRead(w: World, actions: seq<Action>, i: nat, id: nat, opening: CoreHeader,
                              finals: seq<CoreHeader>, shallow: Option<CoreHeader>)
    requires i <= |actions|
  {
    && (forall f :: 0 <= f < |finals| ==> ReadBefore(w, actions, i, id, opening, finals[f]))
    && (shallow.Some? ==> ReadBefore(w, actions, i, id, opening, shallow.value))
  }

  lemma ReadStays(w: World, actions: seq<Action>, i: nat, id: nat, j: Job)
    requires i < |actions| && AllRead(w, actions, i, id, j)
    ensures AllRead(w, actions, i + 1, id, j)
  {
    hide ReadThen;
  }

  lemma AdvanceReads(w: World, actions: seq<Action>, i: nat, id: nat)
    requires i < |actions| && actions[i] == Advances(id)
    requires var now := Moment(w, actions, i);
             id in now.jobs && now.jobs[id].Gathering? && AllRead(w, actions, i, id, now.jobs[id])
    ensures var now := Moment(w, actions, i);
            AllRead(w, actions, i + 1, id, AdvanceGathering(now.jobs[id], now.core))
  {
    hide EpochStart, FinalsToFetch, ShallowToFetch, HorizonHeight, NextEpoch, Moment;
    var now := Moment(w, actions, i);
    var j := now.jobs[id];
    ReadStays(w, actions, i, id, j);
    var next := AdvanceGathering(j, now.core);
    if j.stage.FetchFinals? && |j.finals| != FinalsToFetch(j.seen) && next.Gathering? {
      var read := next.finals[|j.finals|];
      assert ReadThen(w, actions, i, id, j.opening, read);
      assert ReadBefore(w, actions, i + 1, id, j.opening, read);
    }
    if j.stage.FetchShallow? && ShallowToFetch(j.seen) && next.Gathering? {
      assert ReadThen(w, actions, i, id, j.opening, next.shallow.value);
    }
  }

  lemma {:induction false} EveryHeaderWasRead(w: World, actions: seq<Action>, i: nat, id: nat)
    requires Initial(w) && i <= |actions| && id in Moment(w, actions, i).jobs
    ensures AllRead(w, actions, i, id, Moment(w, actions, i).jobs[id])
  {
    hide AdvanceGathering, HeadersRead, Moment, Replace;
    if i == 0 {
      FirstMoment(w, actions);
    } else {
      var before := Moment(w, actions, i - 1);
      NextMoment(w, actions, i - 1);
      EveryHeaderWasRead(w, actions, i - 1, id);
      ReadStays(w, actions, i - 1, id, before.jobs[id]);
      if actions[i - 1] == Advances(id) && before.jobs[id].Gathering? {
        AdvanceReads(w, actions, i - 1, id);
      } else if actions[i - 1] == Advances(id) {
        NothingRead(w, actions, i, id, before.jobs[id], before);
      }
    }
  }

  lemma FirstMoment(w: World, actions: seq<Action>)
    ensures Moment(w, actions, 0) == w
  {
  }

  lemma NothingRead(w: World, actions: seq<Action>, i: nat, id: nat, j: Job, before: World)
    requires i <= |actions| && !j.Gathering? && AllRead(w, actions, i, id, j)
    ensures AllRead(w, actions, i, id, Advance(j, before.core, before.store))
  {
    hide ReadBefore;
  }

  /**
   In every run, whatever Core does: a staged boundary is off its horizon's chain exactly when the
   chain active at its own read had another block at that height, which takes a read made while
   the horizon was not on the active chain.
   */
  lemma OffChainExactly(w: World, actions: seq<Action>, id: nat, h: CoreHeader) returns (m: nat)
    requires Initial(w) && id in After(w, actions).jobs && After(w, actions).jobs[id].Confirmed?
    requires var p := After(w, actions).jobs[id].staged; h in p.finals || p.shallow == Some(h)
    ensures m < |actions|
    ensures var horizon := After(w, actions).jobs[id].staged.horizon;
            && ReadThen(w, actions, m, id, horizon, h)
            && 0 <= h.height <= Height(horizon.hash)
            && (OnChain(h.hash, horizon.hash) <==>
                  At(Moment(w, actions, m).core, h.height) == At(horizon.hash, h.height))
            && (!OnChain(h.hash, horizon.hash) ==> !OnChain(horizon.hash, Moment(w, actions, m).core))
  {
    hide Moment, Ok, JobOk;
    var all := |actions|;
    assert actions[..all] == actions;
    LastMoment(w, actions);
    EveryHeaderWasRead(w, actions, all, id);
    RunKeepsInv(w, actions);
    var j := After(w, actions).jobs[id];
    StagedBelowHorizon(j, After(w, actions).store, h);
    assert ReadBefore(w, actions, all, id, j.staged.horizon, h);
    m :| 0 <= m < all && ReadThen(w, actions, m, id, j.staged.horizon, h);
    if OnChain(j.staged.horizon.hash, Moment(w, actions, m).core) {
      ServedBelow(Moment(w, actions, m).core, j.staged.horizon.hash, h.height);
    }
  }

  lemma LastMoment(w: World, actions: seq<Action>)
    ensures Moment(w, actions, |actions|) == After(w, actions)
  {
    assert actions[..|actions|] == actions;
  }

  lemma StagedBelowHorizon(j: Job, s: CacheState, h: CoreHeader)
    requires j.Confirmed? && JobOk(j, s) && (h in j.staged.finals || j.staged.shallow == Some(h))
    ensures 0 <= h.height <= j.staged.horizon.height == Height(j.staged.horizon.hash)
    ensures h.height == Height(h.hash)
  {
    var p, n := j.staged, FinalsUpTo(j.seen.highest);
    PlanInEpochs(j.seen);
    if h in p.finals {
      var f :| 0 <= f < |p.finals| && p.finals[f] == h;
      FetchHeightsBelowHorizon(j.seen, f);
    }
  }
}
