/**
 * The suggestion box of the location search control: a request counter that
 * makes the latest fetch win, and the list of places on show.
 */
module Suggestions {
  import opened Wrappers
  import opened JsStrings
  import opened Places

  /** `suggestionsState` without its debounce timer. */
  datatype Snapshot = Snapshot(requestId: nat, items: seq<Place>)

  /** What happens to the suggestion box. */
  datatype Event =
    | Fetch                                            // `fetchSuggestions` starts: `++requestId`
    | Settle(id: nat, outcome: Settled<seq<Place>>)    // the search started with `id` settles
    | ClearButton                                      // the clear button is pressed
    | Input(query: string)                             // the input's text changes
    | Dismiss                                          // a place is applied, or the input loses focus

  /** A fetch takes the next request id; the list on show is untouched. */
  function Issue(s: Snapshot): (r: Snapshot)
    ensures r.requestId > s.requestId && r.items == s.items
  {
    Snapshot(s.requestId + 1, s.items)
  }

  /**
   * A settled search is applied only when its id is still the current one:
   * its places are shown (none for an empty answer or an error).
   */
  function SettleStep(s: Snapshot, id: nat, outcome: Settled<seq<Place>>): (r: Snapshot)
    ensures r.requestId == s.requestId
    ensures id != s.requestId ==> r == s
    ensures id == s.requestId ==> r.items == (if outcome.Resolved? then outcome.value else [])
  {
    if id != s.requestId then s
    else match outcome
      case Rejected => Snapshot(s.requestId, [])
      case Resolved(places) => Snapshot(s.requestId, places)
  }

  /** The clear button empties the list and invalidates every search in flight. */
  function ClearStep(s: Snapshot): (r: Snapshot)
    ensures r.requestId > s.requestId && r.items == []
  {
    Snapshot(s.requestId + 1, [])
  }

  /**
   * `handleInput` as written: a blank query empties the list but leaves the
   * counter alone; any other query only restarts the debounce timer.
   */
  function InputAsWritten(s: Snapshot, query: string): (r: Snapshot)
    ensures r.requestId == s.requestId
    ensures Trim(query) == "" ==> r.items == []
    ensures Trim(query) != "" ==> r == s
  {
    if Trim(query) == "" then Snapshot(s.requestId, []) else s
  }

  /** `handleInput` corrected: a blank query also invalidates every search in flight, as the clear button does. */
  function InputStep(s: Snapshot, query: string): (r: Snapshot)
    ensures Trim(query) == "" ==> r.requestId > s.requestId && r.items == []
    ensures Trim(query) != "" ==> r == s
  {
    if Trim(query) == "" then ClearStep(s) else s
  }

  /** `clearSuggestions` */
  function DismissStep(s: Snapshot): (r: Snapshot)
    ensures r.requestId == s.requestId && r.items == []
  {
    Snapshot(s.requestId, [])
  }

  /** Which `handleInput`: the one as written, or the one whose blank case invalidates searches in flight. */
  datatype Version = AsWritten | Corrected

  /** One event, handled by the given version of the control. */
  function Step(v: Version, s: Snapshot, e: Event): Snapshot {
    match e
    case Fetch => Issue(s)
    case Settle(id, outcome) => SettleStep(s, id, outcome)
    case ClearButton => ClearStep(s)
    case Input(query) => if v == AsWritten then InputAsWritten(s, query) else InputStep(s, query)
    case Dismiss => DismissStep(s)
  }

  /** A sequence of events, handled one after another. */
  function Run(v: Version, s: Snapshot, trace: seq<Event>): Snapshot
    decreases |trace|
  {
    if trace == [] then s else Run(v, Step(v, s, trace[0]), trace[1..])
  }

  /**
   * The events after which no search started earlier can be applied: as
   * written, a fetch or the clear button; corrected, a blank input as well.
   */
  predicate Invalidates(v: Version, e: Event) {
    e.Fetch? || e.ClearButton? || (v == Corrected && e.Input? && Trim(e.query) == "")
  }

  /**
   * The counter never goes back, and it moves on with every invalidating
   * event.
   */
  lemma {:induction false} RequestIdMonotone(v: Version, s: Snapshot, trace: seq<Event>)
    ensures Run(v, s, trace).requestId >= s.requestId
    ensures (exists i :: 0 <= i < |trace| && Invalidates(v, trace[i])) ==> Run(v, s, trace).requestId > s.requestId
    decreases |trace|
  {
    if trace != [] {
      var next := Step(v, s, trace[0]);
      RequestIdMonotone(v, next, trace[1..]);
      assert next.requestId >= s.requestId;
      if exists i :: 0 <= i < |trace| && Invalidates(v, trace[i]) {
        var i :| 0 <= i < |trace| && Invalidates(v, trace[i]);
        if i > 0 {
          assert trace[1..][i - 1] == trace[i];
        }
      }
    }
  }

  /**
   * Latest wins: once an invalidating event has come after a fetch, that
   * fetch's answer changes nothing, whenever it arrives and whatever it holds.
   */
  lemma StaleAnswerIgnored(v: Version, s: Snapshot, trace: seq<Event>, outcome: Settled<seq<Place>>)
    requires exists i :: 0 <= i < |trace| && Invalidates(v, trace[i])
    ensures var later := Run(v, Issue(s), trace);
      SettleStep(later, Issue(s).requestId, outcome) == later
  {
    RequestIdMonotone(v, Issue(s), trace);
  }

  /**
   * Two searches A then B, answered out of order (B first, then A) or in
   * order: either way only B's places end up on show.
   */
  lemma OnlyLatestShown(v: Version, s: Snapshot, placesA: seq<Place>, placesB: seq<Place>)
    ensures var a := Issue(s).requestId;
      var b := Issue(Issue(s)).requestId;
      && Run(v, s, [Fetch, Fetch, Settle(b, Resolved(placesB)), Settle(a, Resolved(placesA))]).items == placesB
      && Run(v, s, [Fetch, Fetch, Settle(a, Resolved(placesA)), Settle(b, Resolved(placesB))]).items == placesB
  {
    var a := Issue(s).requestId;
    var b := Issue(Issue(s)).requestId;
    var t1 := [Fetch, Fetch, Settle(b, Resolved(placesB)), Settle(a, Resolved(placesA))];
    var t2 := [Fetch, Fetch, Settle(a, Resolved(placesA)), Settle(b, Resolved(placesB))];
    var both := Issue(Issue(s));
    var afterB := SettleStep(both, b, Resolved(placesB));
    assert Run(v, s, t1) == Run(v, both, t1[2..]);
    assert Run(v, both, t1[2..]) == Run(v, afterB, t1[3..]);
    assert Run(v, afterB, t1[3..]) == Run(v, SettleStep(afterB, a, Resolved(placesA)), []);
    var afterA := SettleStep(both, a, Resolved(placesA));
    assert afterA == both;
    assert Run(v, s, t2) == Run(v, both, t2[2..]);
    assert Run(v, both, t2[2..]) == Run(v, afterA, t2[3..]);
    assert Run(v, afterA, t2[3..]) == Run(v, SettleStep(afterA, b, Resolved(placesB)), []);
  }

  /**
   * As written, a blank input does not invalidate the search in flight: type,
   * let the fetch start, delete the text, and the fetch's places still appear
   * under the empty input. Corrected, the list stays empty.
   */
  lemma BlankInputAsWrittenShowsStalePlaces(p: Place)
    ensures var trace := [Fetch, Input(""), Settle(1, Resolved([p]))];
      && Run(AsWritten, Snapshot(0, []), trace).items == [p]
      && Run(Corrected, Snapshot(0, []), trace).items == []
  {
    var trace := [Fetch, Input(""), Settle(1, Resolved([p]))];
    var started := Issue(Snapshot(0, []));
    assert Trim("") == "";
    var blanked := InputAsWritten(started, "");
    assert Run(AsWritten, Snapshot(0, []), trace) == Run(AsWritten, started, trace[1..]);
    assert Run(AsWritten, started, trace[1..]) == Run(AsWritten, blanked, trace[2..]);
    assert Run(AsWritten, blanked, trace[2..]) == Run(AsWritten, SettleStep(blanked, 1, Resolved([p])), []);
    var cleared := InputStep(started, "");
    assert Run(Corrected, Snapshot(0, []), trace) == Run(Corrected, started, trace[1..]);
    assert Run(Corrected, started, trace[1..]) == Run(Corrected, cleared, trace[2..]);
    assert Run(Corrected, cleared, trace[2..]) == Run(Corrected, SettleStep(cleared, 1, Resolved([p])), []);
  }

  /** The events that may follow a blank input while no new fetch starts. */
  predicate NoFetchSince(trace: seq<Event>, lastIssued: nat) {
    forall i :: 0 <= i < |trace| ==> !trace[i].Fetch? && (trace[i].Settle? ==> trace[i].id <= lastIssued)
  }

  /**
   * Corrected, a blank input keeps the list empty until the next fetch: no
   * answer to a search started before it can fill the list again.
   */
  lemma {:induction false} BlankInputKeepsListEmpty(s: Snapshot, query: string, trace: seq<Event>)
    requires Trim(query) == ""
    requires NoFetchSince(trace, s.requestId)
    ensures Run(Corrected, InputStep(s, query), trace).items == []
    decreases |trace|
  {
    if trace != [] {
      var next := Step(Corrected, InputStep(s, query), trace[0]);
      assert next.items == [] && next.requestId > s.requestId by {
        if trace[0].Settle? {
          assert trace[0].id <= s.requestId;
        }
      }
      BlankListStaysEmpty(Corrected, next, s.requestId, trace[1..]);
    }
  }

  /** With the counter past every id still to be answered and no fetch, an empty list stays empty. */
  lemma {:induction false} BlankListStaysEmpty(v: Version, s: Snapshot, lastIssued: nat, trace: seq<Event>)
    requires s.items == [] && s.requestId > lastIssued
    requires NoFetchSince(trace, lastIssued)
    ensures Run(v, s, trace).items == []
    decreases |trace|
  {
    if trace != [] {
      var next := Step(v, s, trace[0]);
      assert NoFetchSince(trace[1..], lastIssued) by {
        forall i | 0 <= i < |trace[1..]|
          ensures !trace[1..][i].Fetch? && (trace[1..][i].Settle? ==> trace[1..][i].id <= lastIssued)
        {
          assert trace[1..][i] == trace[i + 1];
        }
      }
      BlankListStaysEmpty(v, next, lastIssued, trace[1..]);
    }
  }

  /** `suggestionsState` as the control holds it. */
  class SuggestionBox {
    var requestId: nat
    var items: seq<Place>

    function State(): Snapshot
      reads this
    {
      Snapshot(requestId, items)
    }

    constructor ()
      ensures State() == Snapshot(0, [])
    {
      requestId := 0;
      items := [];
    }

    /** `fetchSuggestions`, up to the `await`: the id this fetch will be judged by. */
    method Fetch() returns (id: nat)
      modifies this
      ensures State() == Issue(old(State()))
      ensures id == requestId
    {
      requestId := requestId + 1;
      id := requestId;
    }

    /** `fetchSuggestions`, after the `await`: applied only when `id` is still current. */
    method Settle(id: nat, outcome: Settled<seq<Place>>) returns (applied: bool)
      modifies this
      ensures State() == SettleStep(old(State()), id, outcome)
      ensures applied <==> id == old(requestId)
    {
      applied := id == requestId;
      if !applied {
        return;
      }
      match outcome {
        case Rejected => items := [];
        case Resolved(places) =>
          if |places| == 0 {
            items := [];
          } else {
            items := places;
          }
      }
    }

    /** The clear button's `mousedown` handler. */
    method ClearButton()
      modifies this
      ensures State() == ClearStep(old(State()))
    {
      items := [];
      requestId := requestId + 1;
    }

    /** `handleInput`, with the blank case corrected to invalidate searches in flight. */
    method Input(query: string)
      modifies this
      ensures State() == InputStep(old(State()), query)
    {
      if Trim(query) == "" {
        items := [];
        requestId := requestId + 1;
      }
    }

    /** `clearSuggestions` */
    method Dismiss()
      modifies this
      ensures State() == DismissStep(old(State()))
    {
      items := [];
    }

    /**
     * A click on suggestion `index`, or Enter with `index` 0: the place is
     * applied and the list emptied; an index with no place does nothing.
     */
    method Choose(index: int) returns (place: Option<Place>)
      modifies this
      ensures 0 <= index < |old(items)| ==> place == Some(old(items)[index]) && State() == DismissStep(old(State()))
      ensures !(0 <= index < |old(items)|) ==> place == None && State() == old(State())
    {
      if 0 <= index < |items| {
        place := Some(items[index]);
        items := [];
      } else {
        place := None;
      }
    }
  }
}
