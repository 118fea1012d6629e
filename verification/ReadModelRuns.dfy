/**
 What every run of reconciles keeps: the shape of event and block rows, and what events have
 learned.
 */
module ReadModelRuns {
  import opened Prelude
  import opened ReadModel

  // ----- Row shapes -----

  /** An event has a height exactly when it is canonical, stale or invalid. */
  ghost predicate EventOk(e: Event) {
    EventCheck(e) && (e.height.Some? <==> e.kind in {Canonical, Stale, InvalidBlock})
  }

  ghost predicate DbOk(db: Db) {
    && (forall id :: id in db.events ==> EventOk(db.events[id]))
    && (forall h :: h in db.blocks ==> RowCheck(h, db.blocks[h]))
  }

  lemma AppliedEventsOk(events: map<nat, Event>, hash: Hash, v: Verdict)
    requires forall id :: id in events ==> EventOk(events[id])
    requires ApplyEvents(events, hash, v).Success?
    ensures var after := ApplyEvents(events, hash, v).value; forall id :: id in after ==> EventOk(after[id])
  {
  }

  lemma {:induction false} SiblingsOk(blocks: map<Hash, Row>, siblings: seq<Sibling>)
    requires forall h :: h in blocks ==> RowCheck(h, blocks[h])
    requires WithSiblings(blocks, siblings).Success?
    ensures var after := WithSiblings(blocks, siblings).value; forall h :: h in after ==> RowCheck(h, after[h])
    decreases |siblings|
  {
    hide RowCheck;
    if siblings != [] {
      SiblingsOk(blocks[siblings[0].hash := SiblingRow(blocks, siblings[0])], siblings[1..]);
    }
  }

  lemma RetiredOk(blocks: map<Hash, Row>, hash: Hash)
    requires forall h :: h in blocks ==> RowCheck(h, blocks[h])
    ensures var after := Retired(blocks, hash); forall h :: h in after ==> RowCheck(h, after[h])
  {
    assert RowCheck(hash, Row(Unknown, None, None, None, None, false, None));
    hide RowCheck;
  }

  lemma RebuiltOk(events: map<nat, Event>, blocks: map<Hash, Row>, catalogue: map<Hash, Entry>, hash: Hash,
                  repr: nat, v: Verdict)
    requires forall h :: h in blocks ==> RowCheck(h, blocks[h])
    requires Rebuilt(events, blocks, catalogue, hash, repr, v).Success?
    ensures var after := Rebuilt(events, blocks, catalogue, hash, repr, v).value;
            forall h :: h in after ==> RowCheck(h, after[h])
  {
    hide RowCheck, Effective, RowFor, RollupDifficulty;
    RetiredOk(blocks, hash);
  }

  /** The transaction's pieces, when it commits and is not skipped. */
  lemma Committed(db: Db, s: Step) returns (parent: Hash, v: Verdict, blocks: map<Hash, Row>)
    requires Reconcile(db, s).Success? && db.events[s.id].pow
    ensures parent == db.events[s.id].parent
    ensures Resolve(s.catalogue, parent, s.live).Success?
    ensures v == Effective(db.blocks, s.catalogue, db.events[s.id], Resolve(s.catalogue, parent, s.live).value)
    ensures ApplyEvents(db.events, parent, v) == Success(After(db, s).events)
    ensures WithSiblings(db.blocks, v.siblings) == Success(blocks)
    ensures Rebuilt(After(db, s).events, blocks, s.catalogue, parent, s.repr, v) == Success(After(db, s).blocks)
  {
    hide ApplyEvents, WithSiblings, Rebuilt, Resolve;
    var e := db.events[s.id];
    parent := e.parent;
    var first := Effective(db.blocks, s.catalogue, e, Resolve(s.catalogue, parent, s.live).value);
    v := Effective(db.blocks, s.catalogue, e, first);
    EffectiveTwice(db.blocks, s.catalogue, e, Resolve(s.catalogue, parent, s.live).value);
    blocks := WithSiblings(db.blocks, v.siblings).value;
  }

  lemma EffectiveTwice(blocks: map<Hash, Row>, catalogue: map<Hash, Entry>, e: Event, v: Verdict)
    ensures Effective(blocks, catalogue, e, Effective(blocks, catalogue, e, v)) == Effective(blocks, catalogue, e, v)
  {
  }

  lemma StepKeepsDbOk(db: Db, s: Step)
    requires DbOk(db)
    ensures DbOk(After(db, s))
  {
    hide EventOk, RowCheck;
    if Reconcile(db, s).Success? && db.events[s.id].pow {
      hide Effective, ApplyEvents, WithSiblings, Rebuilt;
      var parent, v, blocks := Committed(db, s);
      AppliedEventsOk(db.events, parent, v);
      SiblingsOk(db.blocks, v.siblings);
      RebuiltOk(After(db, s).events, blocks, s.catalogue, parent, s.repr, v);
    }
  }

  /** Over any run of verdicts, whatever they are. */
  lemma {:induction false} RunKeepsDbOk(db: Db, run: seq<Step>, n: nat)
    requires DbOk(db) && n <= |run|
    ensures DbOk(At(db, run, n))
  {
    hide DbOk, After;
    if n > 0 {
      RunKeepsDbOk(db, run, n - 1);
      StepKeepsDbOk(At(db, run, n - 1), run[n - 1]);
    }
  }

  // ----- What events remember -----

  /** One step of one event: its identity stays, what it knows of its difficulty is never lost. */
  lemma EventStep(db: Db, s: Step, id: nat)
    requires DbOk(db) && id in db.events
    ensures id in After(db, s).events
    ensures var e, f := db.events[id], After(db, s).events[id];
            && f.parent == e.parent && f.revoked == e.revoked && f.pow == e.pow
            && (e.difficulty.Some? ==> f.difficulty.Some?)
            && (f.kind == Unknown ==> e.kind in {Unknown, InvalidBlock})
  {
    if Reconcile(db, s).Success? && db.events[s.id].pow {
      hide Effective, WithSiblings, Rebuilt, EventCheck, RowCheck;
      var parent, v, blocks := Committed(db, s);
    }
  }

  /** Exactly when a committed step leaves an active event of its parent `unknown`. */
  lemma ForgetsExactly(db: Db, s: Step, id: nat)
    requires DbOk(db) && id in db.events && Reconcile(db, s).Success? && db.events[s.id].pow
    requires Active(db.events[id], db.events[s.id].parent)
    ensures var parent := db.events[s.id].parent;
            After(db, s).events[id].kind == Unknown <==>
              && db.events[id].kind in {Unknown, InvalidBlock}
              && Resolve(s.catalogue, parent, s.live).value.kind == Unknown
              && Persisted(db.blocks, s.catalogue, parent).None?
              && db.events[s.id].kind != Canonical
  {
    hide WithSiblings, Rebuilt, EventCheck, RowCheck, Resolve;
    var parent, v, blocks := Committed(db, s);
  }

  lemma {:induction false} EventRun(db: Db, run: seq<Step>, n: nat, id: nat)
    requires DbOk(db) && n <= |run| && id in db.events
    ensures id in At(db, run, n).events
    ensures db.events[id].difficulty.Some? ==> At(db, run, n).events[id].difficulty.Some?
    ensures At(db, run, n).events[id].parent == db.events[id].parent
    ensures At(db, run, n).events[id].revoked == db.events[id].revoked
  {
    hide DbOk, After;
    if n > 0 {
      EventRun(db, run, n - 1, id);
      RunKeepsDbOk(db, run, n - 1);
      EventStep(At(db, run, n - 1), run[n - 1], id);
    }
  }

  /** On any run, an event that was canonical or stale and is now unknown was invalid in between. */
  lemma {:induction false} ForgetsOnlyThroughInvalid(db: Db, run: seq<Step>, n: nat, id: nat) returns (k: nat)
    requires DbOk(db) && n <= |run| && id in db.events && db.events[id].kind in {Canonical, Stale}
    requires id in At(db, run, n).events && At(db, run, n).events[id].kind == Unknown
    ensures k < n && id in At(db, run, k).events && At(db, run, k).events[id].kind == InvalidBlock
  {
    hide DbOk, After;
    assert n > 0;
    EventRun(db, run, n - 1, id);
    RunKeepsDbOk(db, run, n - 1);
    EventStep(At(db, run, n - 1), run[n - 1], id);
    if At(db, run, n - 1).events[id].kind == Unknown {
      k := ForgetsOnlyThroughInvalid(db, run, n - 1, id);
    } else {
      k := n - 1;
    }
  }
}
