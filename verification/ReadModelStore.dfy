/** The event and block tables, updated in place by a reconcile transaction. */
module ReadModelStore {
  import opened Prelude
  import opened ReadModel

  class Tables {
    var events: map<nat, Event>
    var blocks: map<Hash, Row>

    constructor (events: map<nat, Event>, blocks: map<Hash, Row>)
      ensures this.events == events && this.blocks == blocks
    {
      this.events, this.blocks := events, blocks;
    }

    ghost function Contents(): Db
      reads this
    {
      Db(events, blocks)
    }

    /** Write a verdict to the active events of its parent, row by row; a refused row undoes them all. */
    method ApplyEventClassification(parent: Hash, v: Verdict) returns (fault: Option<Fault>)
      modifies this`events
      ensures fault.None? ==> ApplyEvents(old(events), parent, v) == Success(events)
      ensures fault.Some? ==> ApplyEvents(old(events), parent, v) == Failure(fault.value) && events == old(events)
    {
      hide EventCheck;
      if v.kind in {Canonical, Stale, InvalidBlock} && v.height.None? {
        return Some(MissingHeight);
      }
      var before := events;
      var todo := events.Keys;
      while todo != {}
        invariant todo <= before.Keys == events.Keys
        invariant forall id :: id in before ==>
                    events[id] == if id !in todo && Reached(before[id], parent, v) then Updated(before[id], v) else before[id]
        invariant forall id :: id in before && id !in todo && Reached(before[id], parent, v) ==>
                    EventCheck(Updated(before[id], v))
        decreases todo
      {
        var id :| id in todo;
        todo := todo - {id};
        if Reached(events[id], parent, v) {
          var row := Updated(events[id], v);
          if !EventCheck(row) {
            events := before;
            return Some(CheckViolated);
          }
          events := events[id := row];
        }
      }
      assert events == AppliedEvents(before, parent, v);
      fault := None;
    }

    /** Write the predecessor and competitor headers of a verdict, one upsert at a time. */
    method UpsertSiblings(siblings: seq<Sibling>) returns (fault: Option<Fault>)
      modifies this`blocks
      ensures fault.None? ==> WithSiblings(old(blocks), siblings) == Success(blocks)
      ensures fault.Some? ==> WithSiblings(old(blocks), siblings) == Failure(fault.value)
    {
      var i := 0;
      while i < |siblings|
        invariant 0 <= i <= |siblings|
        invariant WithSiblings(old(blocks), siblings) == WithSiblings(blocks, siblings[i..])
      {
        var s := siblings[i];
        assert siblings[i..][0] == s && siblings[i..][1..] == siblings[i + 1..];
        var row := SiblingRow(blocks, s);
        if !RowCheck(s.hash, row) {
          return Some(CheckViolated);
        }
        blocks := blocks[s.hash := row];
        i := i + 1;
      }
      fault := None;
    }

    /** Rebuild the parent's block row from its active events, or retire it. */
    method RebuildParent(catalogue: map<Hash, Entry>, parent: Hash, repr: nat, v: Verdict)
      returns (fault: Option<Fault>)
      modifies this`blocks
      ensures fault.None? ==> Rebuilt(events, old(blocks), catalogue, parent, repr, v) == Success(blocks)
      ensures fault.Some? ==>
                Rebuilt(events, old(blocks), catalogue, parent, repr, v) == Failure(fault.value) && blocks == old(blocks)
      ensures forall h :: h != parent ==> (h in blocks <==> h in old(blocks))
      ensures forall h :: h != parent && h in blocks ==> blocks[h] == old(blocks)[h]
      ensures fault.None? && HasActive(events, parent) ==> parent in blocks && RowCheck(parent, blocks[parent])
      ensures fault.None? && HasActive(events, parent) && Persisted(old(blocks), catalogue, parent).Some? &&
              v.kind == Unknown ==>
                blocks[parent].kind == old(blocks)[parent].kind
      ensures !HasActive(events, parent) && parent in old(blocks) ==>
                (parent in blocks <==>
                   old(blocks)[parent].coreAttested || exists h :: h in old(blocks) && old(blocks)[h].competitor == Some(parent))
      ensures !HasActive(events, parent) && parent in blocks ==>
                blocks[parent] == old(blocks)[parent] || blocks[parent].kind == Unknown
    {
      hide RowCheck, RollupDifficulty;
      if !HasActive(events, parent) {
        blocks := Retired(blocks, parent);
        return None;
      }
      if repr !in events || !Active(events[repr], parent) {
        return Some(NoSuchEvent);
      }
      var effective := Effective(blocks, catalogue, events[repr], v);
      if effective.kind == InvalidBlock && (effective.height.None? || effective.source.None? || effective.reason.None?) {
        return Some(MissingEvidence);
      }
      if effective.liveObserved != effective.coreAttested {
        return Some(FlagDrift);
      }
      var row := RowFor(effective, RollupDifficulty(events, parent));
      if !RowCheck(parent, row) {
        return Some(CheckViolated);
      }
      blocks := blocks[parent := row];
      fault := None;
    }

    /** One transaction: commit every write, or roll all of them back. */
    method ReconcileEvent(s: Step) returns (fault: Option<Fault>)
      modifies this
      ensures Contents() == After(old(Contents()), s)
      ensures fault == if Reconcile(old(Contents()), s).Success? then None
                       else Some(Reconcile(old(Contents()), s).error)
    {
      hide ApplyEvents, WithSiblings, Rebuilt, Effective, Resolve;
      var events0, blocks0 := events, blocks;
      if s.id !in events {
        return Some(NoSuchEvent);
      }
      var e := events[s.id];
      if !e.pow {
        return None;
      }
      var resolved := Resolve(s.catalogue, e.parent, s.live);
      if resolved.Failure? {
        return Some(resolved.error);
      }
      var v := Effective(blocks, s.catalogue, e, resolved.value);
      v := Effective(blocks, s.catalogue, e, v);
      fault := ApplyEventClassification(e.parent, v);
      if fault.None? {
        fault := UpsertSiblings(v.siblings);
      }
      if fault.None? {
        fault := RebuildParent(s.catalogue, e.parent, s.repr, v);
      }
      if fault.Some? {
        events, blocks := events0, blocks0;
      }
    }
  }
}
