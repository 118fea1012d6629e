/**
 What survives silence: with one catalogue, no known event is ever forgotten, and no run of
 `unknown` verdicts moves a proven block.
 */
module ReadModelProven {
  import opened Prelude
  import opened ReadModel
  import opened ReadModelRuns

  // ----- Preclassification -----

  /**
   A parent may be classified before its reconcile; the verdict, catalogue included, then comes back
   in as the live one. The reconcile does the same either way.
   */
  lemma PreclassifiedSame(db: Db, s: Step, parent: Hash)
    requires s.id in db.events && parent == db.events[s.id].parent
    requires Resolve(s.catalogue, parent, s.live).Success?
    ensures Resolve(s.catalogue, parent, Some(Resolve(s.catalogue, parent, s.live).value)) ==
            Resolve(s.catalogue, parent, s.live)
    ensures Reconcile(db, s.(live := Some(Resolve(s.catalogue, parent, s.live).value))) == Reconcile(db, s)
  {
    hide Effective, ApplyEvents, WithSiblings, Rebuilt;
  }

  lemma {:induction false} ParentsStand(db: Db, run: seq<Step>, n: nat, id: nat)
    requires DbOk(db) && n <= |run|
    ensures id in At(db, run, n).events <==> id in db.events
    ensures id in db.events ==> At(db, run, n).events[id].parent == db.events[id].parent
  {
    hide DbOk, After;
    if n > 0 {
      ParentsStand(db, run, n - 1, id);
      RunKeepsDbOk(db, run, n - 1);
      if id in db.events {
        EventStep(At(db, run, n - 1), run[n - 1], id);
      } else if id in At(db, run, n).events {
        NoNewEvents(At(db, run, n - 1), run[n - 1], id);
      }
    }
  }

  // ----- Known events stay known -----

  predicate ClaimsCatalogue(s: Step) {
    s.live.Some? && s.live.value.kind == InvalidBlock && s.live.value.source == Some(InvalidBlockCatalog)
  }

  /** A verdict that claims the catalogue is about a parent in it, whoever hands the verdict in. */
  predicate Honest(db: Db, s: Step) {
    ClaimsCatalogue(s) && s.id in db.events ==> db.events[s.id].parent in s.catalogue
  }

  /** So it is when it comes from a classifier that does not read the catalogue, preclassified or not. */
  lemma PreclassifiedHonest(db: Db, s: Step, parent: Hash)
    requires s.id in db.events && parent == db.events[s.id].parent && !ClaimsCatalogue(s)
    ensures Honest(db, s)
    ensures Resolve(s.catalogue, parent, s.live).Success? ==>
              Honest(db, s.(live := Some(Resolve(s.catalogue, parent, s.live).value)))
  {
  }

  ghost predicate BackedRow(blocks: map<Hash, Row>, catalogue: map<Hash, Entry>, h: Hash) {
    && h in blocks && blocks[h].kind == InvalidBlock
    && (blocks[h].source != Some(InvalidBlockCatalog) || h in catalogue)
  }

  /** Every active invalid event has an invalid block row that can be read back. */
  ghost predicate InvalidBacked(db: Db, catalogue: map<Hash, Entry>) {
    forall id :: id in db.events && !db.events[id].revoked && db.events[id].kind == InvalidBlock ==>
      BackedRow(db.blocks, catalogue, db.events[id].parent)
  }

  lemma {:induction false} SiblingsKeepInvalid(blocks: map<Hash, Row>, siblings: seq<Sibling>, h: Hash)
    requires WithSiblings(blocks, siblings).Success?
    requires h in blocks && RowCheck(h, blocks[h]) && blocks[h].kind == InvalidBlock
    ensures h in WithSiblings(blocks, siblings).value && WithSiblings(blocks, siblings).value[h] == blocks[h]
    decreases |siblings|
  {
    if siblings != [] {
      SiblingsKeepInvalid(blocks[siblings[0].hash := SiblingRow(blocks, siblings[0])], siblings[1..], h);
    }
  }

  /** Only the parent's own row is rebuilt. */
  lemma RebuiltElsewhere(events: map<nat, Event>, blocks: map<Hash, Row>, catalogue: map<Hash, Entry>, hash: Hash,
                         repr: nat, v: Verdict, h: Hash)
    requires Rebuilt(events, blocks, catalogue, hash, repr, v).Success? && h != hash
    ensures var after := Rebuilt(events, blocks, catalogue, hash, repr, v).value;
            && (h in after <==> h in blocks)
            && (h in blocks ==> after[h] == blocks[h])
  {
    hide Effective, RowFor, RollupDifficulty, RowCheck;
  }

  lemma InvalidVerdictBacked(db: Db, s: Step, parent: Hash, v: Verdict)
    requires Honest(db, s) && s.id in db.events && parent == db.events[s.id].parent
    requires Resolve(s.catalogue, parent, s.live).Success?
    requires v == Effective(db.blocks, s.catalogue, db.events[s.id], Resolve(s.catalogue, parent, s.live).value)
    requires v.kind == InvalidBlock
    ensures v.source != Some(InvalidBlockCatalog) || parent in s.catalogue
  {
  }

  lemma StepKeepsBacked(db: Db, s: Step)
    requires DbOk(db) && InvalidBacked(db, s.catalogue) && Honest(db, s)
    ensures InvalidBacked(After(db, s), s.catalogue)
    ensures forall id :: id in db.events && !db.events[id].revoked && db.events[id].kind != Unknown ==>
              id in After(db, s).events && After(db, s).events[id].kind != Unknown
  {
    if Reconcile(db, s).Success? && db.events[s.id].pow {
      var parent, v, blocks := Committed(db, s);
      forall id | id in After(db, s).events && !After(db, s).events[id].revoked
                  && After(db, s).events[id].kind == InvalidBlock
        ensures BackedRow(After(db, s).blocks, s.catalogue, After(db, s).events[id].parent)
      {
        CommitKeepsBacked(db, s, parent, v, blocks, id);
      }
      forall id | id in db.events && !db.events[id].revoked && db.events[id].kind != Unknown
        ensures id in After(db, s).events && After(db, s).events[id].kind != Unknown
      {
        StepKeepsKnown(db, s, id);
      }
    }
  }

  lemma CommitKeepsBacked(db: Db, s: Step, parent: Hash, v: Verdict, blocks: map<Hash, Row>, id: nat)
    requires DbOk(db) && InvalidBacked(db, s.catalogue) && Honest(db, s)
    requires s.id in db.events && parent == db.events[s.id].parent
    requires Resolve(s.catalogue, parent, s.live).Success?
    requires v == Effective(db.blocks, s.catalogue, db.events[s.id], Resolve(s.catalogue, parent, s.live).value)
    requires ApplyEvents(db.events, parent, v) == Success(After(db, s).events)
    requires WithSiblings(db.blocks, v.siblings) == Success(blocks)
    requires Rebuilt(After(db, s).events, blocks, s.catalogue, parent, s.repr, v) == Success(After(db, s).blocks)
    requires id in After(db, s).events && !After(db, s).events[id].revoked
    requires After(db, s).events[id].kind == InvalidBlock
    ensures BackedRow(After(db, s).blocks, s.catalogue, After(db, s).events[id].parent)
  {
    hide Reconcile, After, Resolve, WithSiblings, RowCheck, EventCheck, RollupDifficulty;
    var h := After(db, s).events[id].parent;
    if h == parent {
      InvalidVerdictBacked(db, s, parent, v);
      assert HasActive(After(db, s).events, parent);
    } else {
      hide Effective;
      assert id in db.events && db.events[id] == After(db, s).events[id];
      SiblingsKeepInvalid(db.blocks, v.siblings, h);
      RebuiltElsewhere(After(db, s).events, blocks, s.catalogue, parent, s.repr, v, h);
    }
  }

  lemma StepKeepsKnown(db: Db, s: Step, id: nat)
    requires DbOk(db) && InvalidBacked(db, s.catalogue)
    requires id in db.events && !db.events[id].revoked && db.events[id].kind != Unknown
    ensures id in After(db, s).events && After(db, s).events[id].kind != Unknown
  {
    hide Resolve, WithSiblings, RowCheck, EventCheck, Rebuilt;
    EventStep(db, s, id);
    if Reconcile(db, s).Success? && db.events[s.id].pow {
      if Active(db.events[id], db.events[s.id].parent) {
        ForgetsExactly(db, s, id);
      } else {
        var parent, v, blocks := Committed(db, s);
      }
    }
  }

  /** A committed step on a parent with active events keeps invalid events backed only if it is honest. */
  lemma BackedExactly(db: Db, s: Step)
    requires DbOk(db) && InvalidBacked(db, s.catalogue)
    requires Reconcile(db, s).Success? && db.events[s.id].pow && HasActive(db.events, db.events[s.id].parent)
    ensures InvalidBacked(After(db, s), s.catalogue) <==> Honest(db, s)
  {
    if Honest(db, s) {
      StepKeepsBacked(db, s);
    } else {
      var parent, v, blocks := Committed(db, s);
      assert v == s.live.value;
      CatalogueClaimUnbacked(db, s, parent, v, blocks);
    }
  }

  lemma CatalogueClaimUnbacked(db: Db, s: Step, parent: Hash, v: Verdict, blocks: map<Hash, Row>)
    requires DbOk(db) && v.kind == InvalidBlock && v.source == Some(InvalidBlockCatalog) && parent !in s.catalogue
    requires HasActive(db.events, parent)
    requires ApplyEvents(db.events, parent, v) == Success(After(db, s).events)
    requires Rebuilt(After(db, s).events, blocks, s.catalogue, parent, s.repr, v) == Success(After(db, s).blocks)
    ensures !InvalidBacked(After(db, s), s.catalogue)
  {
    hide After, RowCheck, EventCheck, RollupDifficulty;
    var id :| id in db.events && Active(db.events[id], parent);
    var e := After(db, s).events[id];
    assert Active(e, parent) && e.kind == InvalidBlock;
    assert HasActive(After(db, s).events, parent);
  }

  /** Over any run against one catalogue, an active event that is known never returns to unknown. */
  lemma {:induction false} KnownStaysKnown(db: Db, run: seq<Step>, catalogue: map<Hash, Entry>, n: nat, id: nat)
    requires DbOk(db) && InvalidBacked(db, catalogue) && n <= |run|
    requires forall i :: 0 <= i < |run| ==> run[i].catalogue == catalogue && Honest(db, run[i])
    requires id in db.events && !db.events[id].revoked && db.events[id].kind != Unknown
    ensures InvalidBacked(At(db, run, n), catalogue)
    ensures id in At(db, run, n).events && At(db, run, n).events[id].kind != Unknown
  {
    hide DbOk, After, InvalidBacked, ClaimsCatalogue;
    if n > 0 {
      KnownStaysKnown(db, run, catalogue, n - 1, id);
      RunKeepsDbOk(db, run, n - 1);
      EventRun(db, run, n - 1, id);
      ParentsStand(db, run, n - 1, run[n - 1].id);
      assert Honest(db, run[n - 1]);
      StepKeepsBacked(At(db, run, n - 1), run[n - 1]);
    }
  }

  /** With a catalogue that loses an entry, a canonical event does return to unknown. */
  lemma CanonicalForgotten()
    ensures exists db: Db, run: seq<Step> ::
              && DbOk(db) && |run| == 2
              && 0 in db.events && !db.events[0].revoked && db.events[0].kind == Canonical
              && 0 in At(db, run, |run|).events && At(db, run, |run|).events[0].kind == Unknown
  {
    var db := Db(map[0 := Event("h", Canonical, Some(7), Some(true), true, false)], map[]);
    var listed := map["h" := Entry(7, "bad")];
    var s0, s1 := Step(listed, 0, 0, None), Step(map[], 0, 0, None);
    var run := [s0, s1];
    ListedThenForgotten(db, s0, s1);
    assert At(db, run, 0) == db;
    assert At(db, run, 1) == After(db, s0);
    assert At(db, run, 2) == After(After(db, s0), s1);
    assert DbOk(db) && At(db, run, |run|).events[0].kind == Unknown;
  }

  lemma ListedThenForgotten(db: Db, s0: Step, s1: Step)
    requires db == Db(map[0 := Event("h", Canonical, Some(7), Some(true), true, false)], map[])
    requires s0 == Step(map["h" := Entry(7, "bad")], 0, 0, None) && s1 == Step(map[], 0, 0, None)
    ensures 0 in After(After(db, s0), s1).events && After(After(db, s0), s1).events[0].kind == Unknown
  {
    hide After;
    ListedByStep(db, s0);
    ForgottenByStep(After(db, s0), s1);
  }

  lemma ListedByStep(db: Db, s: Step)
    requires db == Db(map[0 := Event("h", Canonical, Some(7), Some(true), true, false)], map[])
    requires s == Step(map["h" := Entry(7, "bad")], 0, 0, None)
    ensures After(db, s) ==
            Db(map[0 := Event("h", InvalidBlock, Some(7), Some(true), true, false)],
               map["h" := Row(InvalidBlock, Some(7), Some(InvalidBlockCatalog), None, Some("bad"), false, Some(true))])
  {
    var v := CatalogueVerdict(Entry(7, "bad"));
    assert Effective(db.blocks, s.catalogue, db.events[0], v) == v;
    var e := Event("h", InvalidBlock, Some(7), Some(true), true, false);
    assert AppliedEvents(db.events, "h", v) == map[0 := e];
    assert Active(map[0 := e][0], "h");
  }

  lemma ForgottenByStep(db: Db, s: Step)
    requires db == Db(map[0 := Event("h", InvalidBlock, Some(7), Some(true), true, false)],
                      map["h" := Row(InvalidBlock, Some(7), Some(InvalidBlockCatalog), None, Some("bad"), false, Some(true))])
    requires s == Step(map[], 0, 0, None)
    ensures 0 in After(db, s).events && After(db, s).events[0].kind == Unknown
  {
    assert Persisted(db.blocks, s.catalogue, "h") == None;
    assert Effective(db.blocks, s.catalogue, db.events[0], UnknownVerdict()) == UnknownVerdict();
    assert Active(AppliedEvents(db.events, "h", UnknownVerdict())[0], "h");
  }

  // ----- Proven blocks across silence -----

  /** No verdict, an `unknown` one, or what the catalogue says, handed in as a preclassification. */
  predicate Silent(db: Db, s: Step) {
    || s.live.None?
    || (s.live.value.kind == Unknown && s.live.value.siblings == [])
    || (s.id in db.events ==>
          db.events[s.id].parent in s.catalogue &&
          s.live.value == CatalogueVerdict(s.catalogue[db.events[s.id].parent]))
  }

  /** Silence stays silence through a preclassification. */
  lemma PreclassifiedSilent(db: Db, s: Step, parent: Hash)
    requires s.id in db.events && parent == db.events[s.id].parent && Silent(db, s)
    ensures Resolve(s.catalogue, parent, s.live).Success? ==>
              Silent(db, s.(live := Some(Resolve(s.catalogue, parent, s.live).value)))
  {
  }

  /** The rows an `unknown` verdict leaves at their kind and height. */
  predicate Proven(blocks: map<Hash, Row>, catalogue: map<Hash, Entry>, h: Hash) {
    h in blocks &&
    match blocks[h].kind
    case Canonical => h !in catalogue
    case Stale =>
      && h !in catalogue && blocks[h].competitor.Some? && blocks[h].competitor.value in blocks
      && blocks[blocks[h].competitor.value].kind == Canonical
    case InvalidBlock =>
      if h in catalogue then blocks[h].height == Some(catalogue[h].height)
      else blocks[h].source != Some(InvalidBlockCatalog)
    case _ => false
  }

  predicate SameVerdict(a: Row, b: Row) {
    a.kind == b.kind && a.height == b.height && a.competitor == b.competitor
  }

  lemma SilentVerdict(db: Db, s: Step, parent: Hash, v: Verdict)
    requires Silent(db, s) && s.id in db.events && parent == db.events[s.id].parent
    requires Resolve(s.catalogue, parent, s.live).Success?
    requires v == Effective(db.blocks, s.catalogue, db.events[s.id], Resolve(s.catalogue, parent, s.live).value)
    ensures v.siblings == []
    ensures parent in s.catalogue ==> v == CatalogueVerdict(s.catalogue[parent])
    ensures parent !in s.catalogue && Persisted(db.blocks, s.catalogue, parent).Some? ==>
              v == Persisted(db.blocks, s.catalogue, parent).value
    ensures parent !in s.catalogue && Persisted(db.blocks, s.catalogue, parent).None? ==> v.kind in {Canonical, Unknown}
  {
  }

  /**
   A committed silent step keeps the kind and height of its parent's canonical, stale or invalid
   row exactly when that row is proven.
   */
  lemma SilenceExactly(db: Db, s: Step)
    requires DbOk(db) && Silent(db, s) && Reconcile(db, s).Success? && db.events[s.id].pow
    requires var h := db.events[s.id].parent;
             HasActive(db.events, h) && h in db.blocks && db.blocks[h].kind != Unknown
    ensures var h := db.events[s.id].parent;
            && h in After(db, s).blocks
            && (SameVerdict(After(db, s).blocks[h], db.blocks[h]) <==> Proven(db.blocks, s.catalogue, h))
            && (Proven(db.blocks, s.catalogue, h) && h !in s.catalogue ==>
                  After(db, s).blocks[h].coreAttested == db.blocks[h].coreAttested &&
                  After(db, s).blocks[h].source == db.blocks[h].source)
            && (h in s.catalogue ==> After(db, s).blocks[h].source == Some(InvalidBlockCatalog))
  {
    hide Resolve, EventCheck;
    var h, v, blocks := Committed(db, s);
    SilentVerdict(db, s, h, v);
    ActiveKept(db, s, h);
    RebuiltFromSilence(db, s, h, v);
  }

  lemma ActiveKept(db: Db, s: Step, h: Hash)
    requires DbOk(db)
    ensures HasActive(After(db, s).events, h) == HasActive(db.events, h)
  {
    hide After, DbOk;
    forall id | id in db.events ensures id in After(db, s).events && After(db, s).events[id].parent == db.events[id].parent
      && After(db, s).events[id].revoked == db.events[id].revoked {
      EventStep(db, s, id);
    }
    forall id | id in After(db, s).events ensures id in db.events {
      NoNewEvents(db, s, id);
    }
  }

  lemma NoNewEvents(db: Db, s: Step, id: nat)
    requires id in After(db, s).events
    ensures id in db.events
  {
    hide Effective, WithSiblings, Rebuilt, Resolve, Updated, EventCheck;
  }

  lemma RebuiltFromSilence(db: Db, s: Step, h: Hash, v: Verdict)
    requires h in db.blocks && RowCheck(h, db.blocks[h]) && db.blocks[h].kind != Unknown
    requires v.siblings == []
    requires h in s.catalogue ==> v == CatalogueVerdict(s.catalogue[h])
    requires h !in s.catalogue && Persisted(db.blocks, s.catalogue, h).Some? ==>
               v == Persisted(db.blocks, s.catalogue, h).value
    requires h !in s.catalogue && Persisted(db.blocks, s.catalogue, h).None? ==> v.kind in {Canonical, Unknown}
    requires Rebuilt(After(db, s).events, db.blocks, s.catalogue, h, s.repr, v) == Success(After(db, s).blocks)
    requires HasActive(After(db, s).events, h)
    ensures h in After(db, s).blocks
    ensures SameVerdict(After(db, s).blocks[h], db.blocks[h]) <==> Proven(db.blocks, s.catalogue, h)
    ensures Proven(db.blocks, s.catalogue, h) && h !in s.catalogue ==>
              After(db, s).blocks[h].coreAttested == db.blocks[h].coreAttested &&
              After(db, s).blocks[h].source == db.blocks[h].source
    ensures h in s.catalogue ==> After(db, s).blocks[h].source == Some(InvalidBlockCatalog)
  {
    hide After, Reconcile, HasActive, RollupDifficulty;
    var row := db.blocks[h];
    if row.kind == Stale && h !in s.catalogue && Persisted(db.blocks, s.catalogue, h).None? {
      assert !Proven(db.blocks, s.catalogue, h);
    }
  }

  /** Without the active event, a silent step on a proven row keeps it exactly when Core attests it. */
  lemma RetiredExactly(db: Db, s: Step)
    requires DbOk(db) && Silent(db, s) && Reconcile(db, s).Success? && db.events[s.id].pow
    requires Proven(db.blocks, s.catalogue, db.events[s.id].parent)
    ensures var h := db.events[s.id].parent;
            h in After(db, s).blocks && SameVerdict(After(db, s).blocks[h], db.blocks[h]) <==>
              HasActive(db.events, h) || db.blocks[h].coreAttested
  {
    var h := db.events[s.id].parent;
    if HasActive(db.events, h) || db.blocks[h].coreAttested {
      SilentStepKeepsRow(db, s, h);
    } else {
      hide Resolve, EventCheck, RowCheck, Effective, ApplyEvents;
      var parent, v, blocks := Committed(db, s);
      SilentVerdict(db, s, parent, v);
      ActiveKept(db, s, h);
    }
  }

  /** A proven row that cannot be retired, and whose competitor cannot either. */
  ghost predicate Held(db: Db, catalogue: map<Hash, Entry>, h: Hash) {
    && Proven(db.blocks, catalogue, h)
    && (HasActive(db.events, h) || db.blocks[h].coreAttested)
    && (db.blocks[h].kind == Stale ==>
          var c := db.blocks[h].competitor.value;
          c !in catalogue && (HasActive(db.events, c) || db.blocks[c].coreAttested))
  }

  /** One row, when its own condition holds before the step. */
  lemma SilentStepKeepsRow(db: Db, s: Step, h: Hash)
    requires DbOk(db) && Silent(db, s) && Proven(db.blocks, s.catalogue, h)
    requires HasActive(db.events, h) || db.blocks[h].coreAttested
    ensures h in After(db, s).blocks && SameVerdict(After(db, s).blocks[h], db.blocks[h])
    ensures HasActive(After(db, s).events, h) || After(db, s).blocks[h].coreAttested
    ensures After(db, s).blocks[h].source == db.blocks[h].source || h in s.catalogue
  {
    ActiveKept(db, s, h);
    if Reconcile(db, s).Success? && db.events[s.id].pow {
      hide Resolve, EventCheck, RowCheck, Effective, ApplyEvents;
      var parent, v, blocks := Committed(db, s);
      SilentVerdict(db, s, parent, v);
      if parent != h {
        RebuiltElsewhere(After(db, s).events, blocks, s.catalogue, parent, s.repr, v, h);
      } else if HasActive(db.events, h) {
        SilenceExactly(db, s);
      }
    }
  }

  lemma SilentStepKeepsHeld(db: Db, s: Step, h: Hash)
    requires DbOk(db) && Silent(db, s) && Held(db, s.catalogue, h)
    ensures Held(After(db, s), s.catalogue, h)
    ensures SameVerdict(After(db, s).blocks[h], db.blocks[h])
  {
    hide After, DbOk, HasActive;
    SilentStepKeepsRow(db, s, h);
    if db.blocks[h].kind == Stale {
      SilentStepKeepsRow(db, s, db.blocks[h].competitor.value);
    }
  }

  /** No run of silent steps, on any parents, moves a held block. */
  lemma {:induction false} SilentRunKeepsHeld(db: Db, run: seq<Step>, catalogue: map<Hash, Entry>, n: nat, h: Hash)
    requires DbOk(db) && Held(db, catalogue, h) && n <= |run|
    requires forall i :: 0 <= i < |run| ==> run[i].catalogue == catalogue && Silent(db, run[i])
    ensures Held(At(db, run, n), catalogue, h)
    ensures SameVerdict(At(db, run, n).blocks[h], db.blocks[h])
  {
    hide DbOk, After, Proven, CatalogueVerdict;
    if n > 0 {
      SilentRunKeepsHeld(db, run, catalogue, n - 1, h);
      RunKeepsDbOk(db, run, n - 1);
      ParentsStand(db, run, n - 1, run[n - 1].id);
      assert Silent(db, run[n - 1]);
      SilentStepKeepsHeld(At(db, run, n - 1), run[n - 1], h);
    }
  }

  /** An `unknown` verdict on a canonical block whose hash is catalogued makes it invalid. */
  lemma CataloguedCanonicalReplaced(db: Db, s: Step)
    requires db == Db(map[0 := Event("h", Canonical, Some(7), Some(true), true, false)],
                      map["h" := Row(Canonical, Some(7), Some(BitcoinCore), None, None, true, Some(true))])
    requires s == Step(map["h" := Entry(7, "bad")], 0, 0, Some(UnknownVerdict()))
    ensures DbOk(db) && "h" in db.blocks && db.blocks["h"].kind == Canonical
    ensures "h" in After(db, s).blocks && After(db, s).blocks["h"].kind == InvalidBlock
  {
    var v := CatalogueVerdict(Entry(7, "bad"));
    assert Effective(db.blocks, s.catalogue, db.events[0], v) == v;
    var e := Event("h", InvalidBlock, Some(7), Some(true), true, false);
    assert AppliedEvents(db.events, "h", v) == map[0 := e];
    assert Active(map[0 := e][0], "h");
  }
}
