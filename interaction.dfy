/**
 * The active-interaction slot of the results view: at most one opened item
 * at a time, with a `start` telemetry event when it opens and exactly one
 * `end` event when it is finalized.
 */
module Interaction {
  import opened Wrappers
  import opened JsValues
  import opened Results

  datatype Kind = Start | End

  /** One call of `sendInteractionEvent` that gets as far as sending. */
  datatype Telemetry = Telemetry(itemId: Value, kind: Kind)

  /**
   * The id `finalizeActiveInteraction(target)` ends: none when nothing is
   * open, or when a target is given (truthy) and is not the open item;
   * otherwise the open item. A null target means "whatever is open".
   */
  function FinalizeTarget(active: Option<Value>, target: Value): (ended: Option<Value>)
    ensures ended.None? <==> active.None? || (Truthy(target) && !StrictEquals(active.value, target))
    ensures ended.Some? ==> ended == active
  {
    if active.None? then None
    else if Truthy(target) && !StrictEquals(active.value, target) then None
    else active
  }

  /**
   * The telemetry log alternates `start`, `end`, `start`, ... and every
   * `end` names the item of the `start` just before it; no event is sent for
   * a falsy id.
   */
  ghost predicate Alternating(log: seq<Telemetry>) {
    forall i :: 0 <= i < |log| ==>
      && Truthy(log[i].itemId)
      && log[i].kind == (if i % 2 == 0 then Start else End)
      && (i % 2 == 1 ==> log[i].itemId == log[i - 1].itemId)
  }

  /** The item whose `start` has no `end` yet. */
  function OpenItem(log: seq<Telemetry>): Option<Value> {
    if |log| % 2 == 1 then Some(log[|log| - 1].itemId) else None
  }

  function Count(log: seq<Telemetry>, kind: Kind): nat {
    if log == [] then 0
    else Count(log[..|log| - 1], kind) + (if log[|log| - 1].kind == kind then 1 else 0)
  }

  /**
   * In an alternating log every item is ended at most once: there are never
   * more `end`s than `start`s, and at most one `start` is still open, the
   * one `OpenItem` names.
   */
  lemma {:induction false} AlternatingCounts(log: seq<Telemetry>)
    requires Alternating(log)
    ensures Count(log, End) <= Count(log, Start) <= Count(log, End) + 1
    ensures OpenItem(log).Some? <==> Count(log, Start) == Count(log, End) + 1
  {
    if log != [] {
      var prefix := log[..|log| - 1];
      assert Alternating(prefix) by {
        forall i | 0 <= i < |prefix|
          ensures Truthy(prefix[i].itemId) && prefix[i].kind == (if i % 2 == 0 then Start else End)
          ensures i % 2 == 1 ==> prefix[i].itemId == prefix[i - 1].itemId
        {
          assert prefix[i] == log[i];
          if i % 2 == 1 { assert prefix[i - 1] == log[i - 1]; }
        }
      }
      AlternatingCounts(prefix);
    }
  }

  /** The open interaction and the telemetry sent so far. */
  class Tracker {
    var active: Option<Value>
    var sent: seq<Telemetry>

    ghost predicate Valid()
      reads this
    {
      Alternating(sent) && active == OpenItem(sent)
    }

    constructor ()
      ensures Valid() && active == None && sent == []
    {
      active := None;
      sent := [];
    }

    /**
     * `finalizeActiveInteraction(target)`; with a null target it is also the
     * page's `beforeunload` handler.
     */
    method Finalize(target: Value) returns (ended: Option<Value>)
      requires Valid()
      modifies this
      ensures Valid()
      ensures ended == FinalizeTarget(old(active), target)
      ensures ended.Some? ==> active == None && sent == old(sent) + [Telemetry(ended.value, End)]
      ensures ended.None? ==> active == old(active) && sent == old(sent)
    {
      if active.None? {
        return None;
      }
      if Truthy(target) && !StrictEquals(active.value, target) {
        return None;
      }
      ended := active;
      active := None;
      sent := sent + [Telemetry(ended.value, End)];
    }

    /**
     * `handleResultClick(item)`: whatever is open is finalized, then the item
     * opens when its id is truthy.
     */
    method Open(item: Value) returns (started: Option<Value>)
      requires Valid()
      modifies this
      ensures Valid()
      ensures var id := GetItemId(item);
        && started == (if Truthy(id) then Some(id) else None)
        && active == started
      ensures var ended := FinalizeTarget(old(active), Null);
        sent == old(sent)
          + (if ended.Some? then [Telemetry(ended.value, End)] else [])
          + (if started.Some? then [Telemetry(started.value, Start)] else [])
    {
      var ended := Finalize(Null);
      var id := GetItemId(item);
      if !Truthy(id) {
        return None;
      }
      started := Some(id);
      active := started;
      sent := sent + [Telemetry(id, Start)];
    }
  }
}
