/** The table of runs: what a trigger records of its plan and what the actor reads back. */
module RunStore {
  import opened Basics
  import P = Planner
  import R = Reaper

  /** The planned items as the actor reads them back, in rank order. */
  function AsItems(items: seq<P.RunItem>): seq<R.Item> {
    seq(|items|, i requires 0 <= i < |items| => R.Item(items[i].rank, items[i].hash, items[i].sizeBytes))
  }

  datatype Entry = Entry(live: bool, trigger: R.Trigger, items: seq<P.RunItem>)

  class Runs {
    var entries: map<RunId, Entry>
    var last: RunId

    /** Ids are given in increasing order. */
    ghost predicate Valid()
      reads this
    {
      forall id :: id in entries ==> id <= last
    }

    constructor ()
      ensures Valid() && entries == map[]
    {
      entries, last := map[], 0;
    }

    /** A new run, without items yet. */
    method InsertRun(live: bool, trigger: R.Trigger, fails: bool) returns (id: Option<RunId>)
      requires Valid()
      modifies this
      ensures Valid()
      ensures id == None <==> fails
      ensures id == None ==> entries == old(entries)
      ensures id.Some? ==> id.value !in old(entries) && entries == old(entries)[id.value := Entry(live, trigger, [])]
    {
      if fails { return None; }
      last := last + 1;
      entries := entries[last := Entry(live, trigger, [])];
      return Some(last);
    }

    /** All of a run's items or none; without items nothing is written, and nothing can fail. */
    method InsertRunItems(id: RunId, items: seq<P.RunItem>, fails: bool) returns (ok: bool)
      requires Valid() && id in entries && entries[id].items == []
      modifies this`entries
      ensures Valid()
      ensures ok <==> items == [] || !fails
      ensures entries == old(entries)[id := old(entries)[id].(items := if ok then items else [])]
    {
      if items == [] { return true; }
      if fails { return false; }
      entries := entries[id := entries[id].(items := items)];
      return true;
    }

    /** What the actor is given for a run. */
    function Read(id: RunId): Option<R.RunRecord>
      reads this
    {
      if id in entries then Some(R.RunRecord(entries[id].live, entries[id].trigger, AsItems(entries[id].items)))
      else None
    }
  }
}
