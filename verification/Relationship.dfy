/**
 The relationship signals of a Bitcoin parent: which pools it names, and whether it names more
 than one. One derivation serves two representations of a pool.
 */
module Relationship {
  import opened Prelude

  datatype DraftPool<P> = Known(pool: P) | Snapshot(slug: string)

  datatype Draft<P> = Draft(key: Key, pool: DraftPool<P>, basis: string)

  /** What makes two signals the same one. */
  datatype Key = Key(kind: string, source: Option<string>, namespace: string, value: string)

  datatype Signal<P> = Signal(key: Key, pool: P, basis: string)

  datatype Signals<P> = Signals(mixed: bool, reference: P, pools: seq<P>, entries: seq<Signal<P>>)

  // ----- The derivation -----

  function Resolve<P>(d: Draft<P>, bySlug: map<string, P>, unknown: P): Signal<P> {
    match d.pool
    case Known(pool) => Signal(d.key, pool, d.basis)
    case Snapshot(slug) => Signal(d.key, if slug in bySlug then bySlug[slug] else unknown, d.basis)
  }

  ghost predicate HasKey<P>(drafts: seq<Draft<P>>, key: Key) {
    exists i :: 0 <= i < |drafts| && drafts[i].key == key
  }

  /** Each signal once, at its first place. */
  ghost function Entries<P>(drafts: seq<Draft<P>>, bySlug: map<string, P>, unknown: P): seq<Signal<P>> {
    if drafts == [] then []
    else
      var init, last := drafts[..|drafts| - 1], drafts[|drafts| - 1];
      Entries(init, bySlug, unknown) + if HasKey(init, last.key) then [] else [Resolve(last, bySlug, unknown)]
  }

  /** A pool with this id is among `pools`. */
  ghost predicate Names<P(!new)>(id: P -> Option<int>, pools: seq<P>, n: int) {
    exists i :: 0 <= i < |pools| && id(pools[i]) == Some(n)
  }

  /** The known pools, each id once, at its first place. */
  ghost function Distinct<P(!new)>(id: P -> Option<int>, pools: seq<P>): seq<P> {
    if pools == [] then []
    else
      var init, last := pools[..|pools| - 1], pools[|pools| - 1];
      if id(last).Some? && !Names(id, Distinct(id, init), id(last).value) then Distinct(id, init) + [last]
      else Distinct(id, init)
  }

  function PoolsOf<P>(entries: seq<Signal<P>>): (r: seq<P>)
    ensures |r| == |entries| && forall i :: 0 <= i < |r| ==> r[i] == entries[i].pool
  {
    seq(|entries|, i requires 0 <= i < |entries| => entries[i].pool)
  }

  ghost function Finished<P(!new)>(id: P -> Option<int>, unknown: P, miner: P, drafts: seq<Draft<P>>,
                                   bySlug: map<string, P>): Signals<P>
  {
    var entries := Entries(drafts, bySlug, unknown);
    var pools := Distinct(id, [miner] + PoolsOf(entries));
    Signals(|pools| > 1, if pools == [] then unknown else pools[0], pools, entries)
  }

  method ResolveOnce<P(!new, ==)>(drafts: seq<Draft<P>>, bySlug: map<string, P>, unknown: P) returns (entries: seq<Signal<P>>)
    ensures entries == Entries(drafts, bySlug, unknown)
  {
    hide Resolve;
    var seen: set<Key> := {};
    entries := [];
    var i := 0;
    while i < |drafts|
      invariant 0 <= i <= |drafts|
      invariant entries == Entries(drafts[..i], bySlug, unknown)
      invariant forall k :: k in seen <==> HasKey(drafts[..i], k)
    {
      var d := drafts[i];
      assert drafts[..i + 1][..i] == drafts[..i];
      if d.key !in seen {
        entries := entries + [Resolve(d, bySlug, unknown)];
      }
      forall k ensures k in seen + {d.key} <==> HasKey(drafts[..i + 1], k) {
        HasKeySnoc(drafts, i, k);
      }
      seen := seen + {d.key};
      i := i + 1;
    }
    assert drafts[..|drafts|] == drafts;
  }

  lemma HasKeySnoc<P>(drafts: seq<Draft<P>>, i: nat, k: Key)
    requires i < |drafts|
    ensures HasKey(drafts[..i + 1], k) <==> HasKey(drafts[..i], k) || drafts[i].key == k
  {
    if HasKey(drafts[..i], k) {
      var j :| 0 <= j < i && drafts[..i][j].key == k;
      assert drafts[..i + 1][j].key == k;
    }
    assert drafts[..i + 1][i] == drafts[i];
  }

  method Finish<P(!new, ==)>(id: P -> Option<int>, unknown: P, miner: P, drafts: seq<Draft<P>>, bySlug: map<string, P>)
    returns (r: Signals<P>)
    ensures r == Finished(id, unknown, miner, drafts, bySlug)
  {
    var entries := ResolveOnce(drafts, bySlug, unknown);
    hide Entries;
    var named := [miner] + PoolsOf(entries);
    var pools := [];
    var i := 0;
    while i < |named|
      invariant 0 <= i <= |named|
      invariant pools == Distinct(id, named[..i])
    {
      assert named[..i + 1][..i] == named[..i];
      if id(named[i]).Some? && !(exists j :: 0 <= j < |pools| && id(pools[j]) == id(named[i])) {
        pools := pools + [named[i]];
      }
      i := i + 1;
    }
    assert named[..|named|] == named;
    r := Signals(|pools| > 1, if pools == [] then unknown else pools[0], pools, entries);
  }

  // ----- What the pools are -----

  /** Every pool has a known id, and no two the same. */
  ghost predicate IdsDistinct<P(!new)>(id: P -> Option<int>, pools: seq<P>) {
    && (forall i :: 0 <= i < |pools| ==> id(pools[i]).Some?)
    && (forall i, j :: 0 <= i < j < |pools| ==> id(pools[i]) != id(pools[j]))
  }

  /** Ids are known and distinct, and exactly the known ids named. */
  lemma {:induction false} DistinctIds<P(!new)>(id: P -> Option<int>, pools: seq<P>)
    ensures var d := Distinct(id, pools);
            && IdsDistinct(id, d)
            && (forall n :: Names(id, d, n) <==> Names(id, pools, n))
  {
    if pools != [] {
      hide IdsDistinct, Names;
      var init, last := pools[..|pools| - 1], pools[|pools| - 1];
      DistinctIds(id, init);
      DistinctGrows(id, Distinct(id, init), Distinct(id, pools), last);
      forall n ensures Names(id, Distinct(id, pools), n) <==> Names(id, pools, n) {
        NamesSnoc(id, init, last, n);
        NamesSnoc(id, Distinct(id, init), last, n);
        assert pools == init + [last];
      }
    }
  }

  /** One more pool keeps the ids known and distinct. */
  lemma DistinctGrows<P(!new)>(id: P -> Option<int>, before: seq<P>, after: seq<P>, last: P)
    requires IdsDistinct(id, before)
    requires after == before || (id(last).Some? && !Names(id, before, id(last).value) && after == before + [last])
    ensures IdsDistinct(id, after)
  {
    if after != before {
      forall i, j | 0 <= i < j < |after| ensures id(after[i]) != id(after[j]) {
        assert after[i] == before[i];
        assert j < |before| ==> after[j] == before[j];
      }
    }
  }

  lemma NamesSnoc<P(!new)>(id: P -> Option<int>, pools: seq<P>, last: P, n: int)
    ensures Names(id, pools + [last], n) <==> Names(id, pools, n) || id(last) == Some(n)
  {
    var all := pools + [last];
    if Names(id, pools, n) {
      var i :| 0 <= i < |pools| && id(pools[i]) == Some(n);
      assert id(all[i]) == Some(n);
    }
    assert all[|pools|] == last;
  }

  /** `mixed` holds exactly when two distinct known ids are named. */
  lemma MixedExactly<P(!new)>(id: P -> Option<int>, unknown: P, miner: P, drafts: seq<Draft<P>>, bySlug: map<string, P>)
    ensures var named := [miner] + PoolsOf(Entries(drafts, bySlug, unknown));
            Finished(id, unknown, miner, drafts, bySlug).mixed <==>
              exists m, n :: m != n && Names(id, named, m) && Names(id, named, n)
  {
    var named := [miner] + PoolsOf(Entries(drafts, bySlug, unknown));
    hide Entries, Distinct;
    var d := Distinct(id, named);
    DistinctIds(id, named);
    if |d| > 1 {
      var m, n := id(d[0]).value, id(d[1]).value;
      assert Names(id, d, m) && Names(id, d, n);
    }
    if m, n :| m != n && Names(id, named, m) && Names(id, named, n) {
      assert Names(id, d, m) && Names(id, d, n);
    }
  }

  /** The first known pool of `pools` leads the distinct ones. */
  lemma {:induction false} FirstKnownLeads<P(!new)>(id: P -> Option<int>, pools: seq<P>, k: nat)
    requires k < |pools| && id(pools[k]).Some? && forall i :: 0 <= i < k ==> id(pools[i]).None?
    ensures Distinct(id, pools) != [] && Distinct(id, pools)[0] == pools[k]
  {
    var init := pools[..|pools| - 1];
    if k < |pools| - 1 {
      FirstKnownLeads(id, init, k);
    } else {
      NoneKnown(id, init);
    }
  }

  lemma {:induction false} NoneKnown<P(!new)>(id: P -> Option<int>, pools: seq<P>)
    requires forall i :: 0 <= i < |pools| ==> id(pools[i]).None?
    ensures Distinct(id, pools) == []
  {
    if pools != [] {
      NoneKnown(id, pools[..|pools| - 1]);
    }
  }

  ghost predicate FirstKnown<P(!new)>(id: P -> Option<int>, entries: seq<Signal<P>>, k: int) {
    && 0 <= k < |entries| && id(entries[k].pool).Some?
    && forall i :: 0 <= i < k ==> id(entries[i].pool).None?
  }

  /** The reference is the miner when known, else the first known signal's pool, else unknown. */
  lemma ReferenceExactly<P(!new)>(id: P -> Option<int>, unknown: P, miner: P, drafts: seq<Draft<P>>,
                                  bySlug: map<string, P>)
    ensures var r := Finished(id, unknown, miner, drafts, bySlug);
            && (id(miner).Some? ==> r.reference == miner)
            && (forall k :: id(miner).None? && FirstKnown(id, r.entries, k) ==> r.reference == r.entries[k].pool)
            && (id(miner).None? && (forall i :: 0 <= i < |r.entries| ==> id(r.entries[i].pool).None?) ==>
                  r.reference == unknown && r.pools == [])
  {
    var r := Finished(id, unknown, miner, drafts, bySlug);
    hide Entries, Distinct;
    var named := [miner] + PoolsOf(r.entries);
    if id(miner).Some? {
      FirstKnownLeads(id, named, 0);
    } else {
      forall k | FirstKnown(id, r.entries, k) ensures r.reference == r.entries[k].pool {
        FirstKnownLeads(id, named, k + 1);
      }
      if forall i :: 0 <= i < |r.entries| ==> id(r.entries[i].pool).None? {
        NoneKnown(id, named);
      }
    }
  }

  // ----- Two representations, one answer -----

  function Same(n: Option<int>): Option<int> {
    n
  }

  function DraftIds<P>(id: P -> Option<int>, drafts: seq<Draft<P>>): (r: seq<Draft<Option<int>>>)
    ensures |r| == |drafts|
    ensures forall i :: 0 <= i < |r| ==> r[i] == DraftId(id, drafts[i])
  {
    seq(|drafts|, i requires 0 <= i < |drafts| => DraftId(id, drafts[i]))
  }

  function DraftId<P>(id: P -> Option<int>, d: Draft<P>): Draft<Option<int>> {
    Draft(d.key, if d.pool.Known? then Known(id(d.pool.pool)) else Snapshot(d.pool.slug), d.basis)
  }

  function SlugIds<P>(id: P -> Option<int>, bySlug: map<string, P>): map<string, Option<int>> {
    map s | s in bySlug :: id(bySlug[s])
  }

  function SignalId<P>(id: P -> Option<int>, s: Signal<P>): Signal<Option<int>> {
    Signal(s.key, id(s.pool), s.basis)
  }

  function EntryIds<P>(id: P -> Option<int>, entries: seq<Signal<P>>): (r: seq<Signal<Option<int>>>)
    ensures |r| == |entries| && forall i :: 0 <= i < |r| ==> r[i] == SignalId(id, entries[i])
  {
    seq(|entries|, i requires 0 <= i < |entries| => SignalId(id, entries[i]))
  }

  function PoolIds<P>(id: P -> Option<int>, pools: seq<P>): (r: seq<Option<int>>)
    ensures |r| == |pools| && forall i :: 0 <= i < |r| ==> r[i] == id(pools[i])
  {
    seq(|pools|, i requires 0 <= i < |pools| => id(pools[i]))
  }

  lemma {:induction false} EntriesCommute<P(!new)>(id: P -> Option<int>, drafts: seq<Draft<P>>, bySlug: map<string, P>,
                                                   unknown: P)
    requires id(unknown) == None
    ensures EntryIds(id, Entries(drafts, bySlug, unknown)) ==
            Entries(DraftIds(id, drafts), SlugIds(id, bySlug), None)
  {
    if drafts != [] {
      var init, last := drafts[..|drafts| - 1], drafts[|drafts| - 1];
      EntriesCommute(id, init, bySlug, unknown);
      var ids := DraftIds(id, drafts);
      assert ids[..|ids| - 1] == DraftIds(id, init);
      KeysKept(id, init, last.key);
      assert SignalId(id, Resolve(last, bySlug, unknown)) == Resolve(DraftId(id, last), SlugIds(id, bySlug), None);
    }
  }

  lemma KeysKept<P>(id: P -> Option<int>, drafts: seq<Draft<P>>, key: Key)
    ensures HasKey(DraftIds(id, drafts), key) <==> HasKey(drafts, key)
  {
    var ids := DraftIds(id, drafts);
    if HasKey(drafts, key) {
      var i :| 0 <= i < |drafts| && drafts[i].key == key;
      assert ids[i].key == key;
    }
  }

  lemma {:induction false} DistinctCommutes<P(!new)>(id: P -> Option<int>, pools: seq<P>)
    ensures PoolIds(id, Distinct(id, pools)) == Distinct(Same, PoolIds(id, pools))
  {
    if pools != [] {
      var init, last := pools[..|pools| - 1], pools[|pools| - 1];
      DistinctCommutes(id, init);
      var ids := PoolIds(id, pools);
      assert ids[..|ids| - 1] == PoolIds(id, init);
      if id(last).Some? {
        NamesKept(id, Distinct(id, init), id(last).value);
      }
    }
  }

  lemma NamesKept<P(!new)>(id: P -> Option<int>, pools: seq<P>, n: int)
    ensures Names(Same, PoolIds(id, pools), n) <==> Names(id, pools, n)
  {
    var ids := PoolIds(id, pools);
    if Names(id, pools, n) {
      var i :| 0 <= i < |pools| && id(pools[i]) == Some(n);
      assert Same(ids[i]) == Some(n);
    }
  }

  /**
   Deriving over full pools and then keeping ids gives what deriving over ids gives: the block page
   and the stored summary agree on entries, pools and their order, reference and `mixed`.
   */
  lemma FinishCommutes<P(!new)>(id: P -> Option<int>, unknown: P, miner: P, drafts: seq<Draft<P>>, bySlug: map<string, P>)
    requires id(unknown) == None
    ensures var full := Finished(id, unknown, miner, drafts, bySlug);
            Finished(Same, None, id(miner), DraftIds(id, drafts), SlugIds(id, bySlug)) ==
            Signals(full.mixed, id(full.reference), PoolIds(id, full.pools), EntryIds(id, full.entries))
  {
    var entries := Entries(drafts, bySlug, unknown);
    EntriesCommute(id, drafts, bySlug, unknown);
    var ids := Entries(DraftIds(id, drafts), SlugIds(id, bySlug), None);
    hide Entries;
    var named := [miner] + PoolsOf(entries);
    assert PoolIds(id, named) == [id(miner)] + PoolsOf(ids);
    DistinctCommutes(id, named);
    hide Distinct;
  }
}
