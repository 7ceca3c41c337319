/**
 * The list operations of the Streamlit flow in `app.py`: the events built
 * from the three input slots and the content order kept in the session
 * (its first value, its reconciliation on every rerun, the Move Up / Move
 * Down swaps). Widgets, reruns and messages are left out; the session
 * state is the one object whose field the flow reassigns.
 */
module App {
  import opened Wrappers
  import opened Text
  import opened Seqs
  import opened CsvProcessor

  // ---------------------------------------------------------------------
  // Events from the input slots

  /** The four text inputs of one event slot, as typed. */
  datatype EventSlot = EventSlot(title: string, description: string, url: string, image: string)

  /** One entry of the `events` list. */
  datatype Event = Event(id: string, title: string, url: string, image: string, description: string)

  /** How many event slots the page offers. */
  const SlotCount: nat := 3

  /** `f"event_{i+1}"` */
  function EventId(i: nat): string {
    "event_" + NatToString(i + 1)
  }

  /** The stripped title, or `f"Event {i+1}"` when it is blank. */
  function EventTitle(title: string, i: nat): (t: string)
    ensures t != "" && IsStripped(t)
    ensures Strip(title) != "" ==> t == Strip(title)
  {
    if Strip(title) != "" then Strip(title)
    else
      var n := NatToString(i + 1);
      assert IsDigit(n[|n| - 1]);
      "Event " + n
  }

  function MakeEvent(i: nat, slot: EventSlot): Event {
    Event(EventId(i), EventTitle(slot.title, i), slot.url, slot.image, slot.description)
  }

  predicate HasDescription(slot: EventSlot) {
    slot.description != ""
  }

  /** The events of the slots, in slot order: one per slot with a description. */
  function SlotEvents(slots: seq<EventSlot>): seq<Event> {
    FilterMapIndexed(slots, HasDescription, MakeEvent)
  }

  /** The loop over the slots that appends to `events`. */
  method BuildEvents(slots: seq<EventSlot>) returns (events: seq<Event>)
    ensures events == SlotEvents(slots)
  {
    events := [];
    for i := 0 to |slots|
      invariant events == SlotEvents(slots[..i])
    {
      assert slots[..i + 1][..i] == slots[..i];
      var slot := slots[i];
      if slot.description != "" {
        var finalTitle := if Strip(slot.title) != "" then Strip(slot.title) else "Event " + NatToString(i + 1);
        events := events + [Event("event_" + NatToString(i + 1), finalTitle, slot.url, slot.image, slot.description)];
      }
    }
    assert slots[..|slots|] == slots;
  }

  function IdOf(e: Event): string {
    e.id
  }

  function EventIds(events: seq<Event>): seq<string> {
    Map(events, IdOf)
  }

  predicate DistinctIds(ids: seq<string>) {
    forall a, b :: 0 <= a < b < |ids| ==> ids[a] != ids[b]
  }

  /** The key test `item.startswith('event_')`. */
  predicate IsEventKey(k: string) {
    StartsWith(k, "event_")
  }

  predicate IsCourseKey(k: string) {
    !IsEventKey(k)
  }

  /** Different slots give different ids. */
  lemma EventIdInjective(i: nat, j: nat)
    ensures EventId(i) == EventId(j) <==> i == j
  {
    if EventId(i) == EventId(j) {
      assert NatToString(i + 1) == EventId(i)[6..] == EventId(j)[6..] == NatToString(j + 1);
    }
  }

  lemma SlotEventsSnoc(slots: seq<EventSlot>)
    requires slots != []
    ensures var n := |slots| - 1;
            SlotEvents(slots) == SlotEvents(slots[..n]) + (if slots[n].description != "" then [MakeEvent(n, slots[n])] else [])
  {
  }

  /** Every slot with a description gives its event. */
  lemma SlotEventsComplete(slots: seq<EventSlot>, i: nat)
    requires i < |slots| && slots[i].description != ""
    ensures MakeEvent(i, slots[i]) in SlotEvents(slots)
  {
    FilterMapIndexedComplete(slots, HasDescription, MakeEvent, i);
  }

  /** Every event comes from a slot with a description, with that slot's
      id, title and inputs. */
  lemma SlotEventsSound(slots: seq<EventSlot>, e: Event)
    requires e in SlotEvents(slots)
    ensures exists i :: 0 <= i < |slots| && slots[i].description != "" && e == MakeEvent(i, slots[i])
  {
    FilterMapIndexedSound(slots, HasDescription, MakeEvent, e);
  }

  /** Every event id names the slot it was built from. */
  lemma SlotEventIdNamed(slots: seq<EventSlot>, k: string) returns (i: nat)
    requires k in EventIds(SlotEvents(slots))
    ensures i < |slots| && slots[i].description != "" && k == EventId(i)
    ensures IsEventKey(k)
  {
    var events := SlotEvents(slots);
    var j :| 0 <= j < |events| && EventIds(events)[j] == k;
    var e := events[j];
    SlotEventsSound(slots, e);
    i :| 0 <= i < |slots| && slots[i].description != "" && e == MakeEvent(i, slots[i]);
  }

  lemma {:induction false} SlotEventIdsDistinct(slots: seq<EventSlot>)
    ensures DistinctIds(EventIds(SlotEvents(slots)))
  {
    if slots != [] {
      var n := |slots| - 1;
      var init := slots[..n];
      SlotEventIdsDistinct(init);
      SlotEventsSnoc(slots);
      if slots[n].description != "" {
        var before := EventIds(SlotEvents(init));
        var events := SlotEvents(init) + [MakeEvent(n, slots[n])];
        assert events[..|events| - 1] == SlotEvents(init);
        assert EventIds(events) == before + [EventId(n)];
        forall a | 0 <= a < |before| ensures before[a] != EventId(n) {
          var i := SlotEventIdNamed(init, before[a]);
          EventIdInjective(i, n);
        }
      }
    }
  }

  /** Every event id is an "event_" key and no two events share an id. */
  lemma SlotEventIds(slots: seq<EventSlot>)
    ensures DistinctIds(EventIds(SlotEvents(slots)))
    ensures forall k :: k in EventIds(SlotEvents(slots)) ==> IsEventKey(k)
  {
    SlotEventIdsDistinct(slots);
    forall k | k in EventIds(SlotEvents(slots))
      ensures IsEventKey(k)
    {
      var _ := SlotEventIdNamed(slots, k);
    }
  }

  // ---------------------------------------------------------------------
  // The content order

  /** `[k for k, v in content_types.items() if v['available']]`, in the
      dictionary's order. */
  function AvailableTypes(ct: ContentTypes): seq<string> {
    (if ct.adults.available then ["adults"] else [])
    + (if ct.juniors.available then ["juniors"] else [])
    + (if ct.events.available then ["events"] else [])
    + (if ct.dropIns.available then ["drop_ins"] else [])
  }

  predicate NotAdults(k: string) {
    k != "adults"
  }

  /** The first order: 'adults' whether or not there are adult courses,
      the other available types, then the events in slot order. */
  function InitialOrder(available: seq<string>, events: seq<Event>): seq<string> {
    ["adults"] + Filter(available, NotAdults) + EventIds(events)
  }

  /** Appends each id not yet present, in order. */
  function AppendNew(order: seq<string>, ids: seq<string>): seq<string> {
    if ids == [] then order
    else
      var r := AppendNew(order, ids[..|ids| - 1]);
      if ids[|ids| - 1] in r then r else r + [ids[|ids| - 1]]
  }

  /** The order after a rerun: the course keys as they were, then every
      current event id not already there. */
  function Reconciled(order: seq<string>, events: seq<Event>): seq<string> {
    AppendNew(Filter(order, IsCourseKey), EventIds(events))
  }

  /** The Move Up swap at `i`; a no-op at the top. */
  function SwapUp(order: seq<string>, i: nat): (r: seq<string>)
    requires i < |order|
    ensures |r| == |order|
  {
    if i > 0 then order[i := order[i - 1]][i - 1 := order[i]] else order
  }

  /** The Move Down swap at `i`; a no-op at the bottom. */
  function SwapDown(order: seq<string>, i: nat): (r: seq<string>)
    requires i < |order|
    ensures |r| == |order|
  {
    if i < |order| - 1 then order[i := order[i + 1]][i + 1 := order[i]] else order
  }

  /** `st.session_state`, as far as the content order goes. */
  class Session {
    /** `content_order`, absent until the first pass of step 2. */
    var contentOrder: Option<seq<string>>

    constructor ()
      ensures contentOrder == None
    {
      contentOrder := None;
    }

    /** The start of step 2: build the first order, or reconcile the kept
        one with the current events. */
    method UpdateOrder(available: seq<string>, events: seq<Event>)
      modifies this
      ensures contentOrder == Some(if old(contentOrder).None? then InitialOrder(available, events)
                                   else Reconciled(old(contentOrder).value, events))
    {
      if contentOrder.None? {
        var order := DefaultOrder(available, events);
        contentOrder := Some(order);
      } else {
        var order := ReconcileOrder(contentOrder.value, events);
        contentOrder := Some(order);
      }
    }

    /** The Move Up button of row `i`. */
    method MoveUp(i: nat)
      requires contentOrder.Some? && i < |contentOrder.value|
      modifies this
      ensures contentOrder == Some(SwapUp(old(contentOrder).value, i))
    {
      var current := contentOrder.value;
      if i > 0 {
        current := current[i := current[i - 1]][i - 1 := current[i]];
        contentOrder := Some(current);
      }
    }

    /** The Move Down button of row `i`. */
    method MoveDown(i: nat)
      requires contentOrder.Some? && i < |contentOrder.value|
      modifies this
      ensures contentOrder == Some(SwapDown(old(contentOrder).value, i))
    {
      var current := contentOrder.value;
      if i < |current| - 1 {
        current := current[i := current[i + 1]][i + 1 := current[i]];
        contentOrder := Some(current);
      }
    }
  }

  /** The loops that build `default_order`. */
  method DefaultOrder(available: seq<string>, events: seq<Event>) returns (order: seq<string>)
    ensures order == InitialOrder(available, events)
  {
    order := ["adults"];
    for k := 0 to |available|
      invariant order == ["adults"] + Filter(available[..k], NotAdults)
    {
      FilterStep(available, NotAdults, k);
      if available[k] != "adults" {
        AppendAssoc(["adults"], Filter(available[..k], NotAdults), available[k]);
        order := order + [available[k]];
      }
    }
    assert available[..|available|] == available;
    ghost var courses := order;
    for k := 0 to |events|
      invariant order == courses + EventIds(events[..k])
    {
      assert events[..k + 1][..k] == events[..k];
      order := order + [events[k].id];
    }
    assert events[..|events|] == events;
  }

  /** The rebuild on a rerun: keep the course keys, then append the events. */
  method ReconcileOrder(order: seq<string>, events: seq<Event>) returns (r: seq<string>)
    ensures r == Reconciled(order, events)
  {
    r := [];
    for k := 0 to |order|
      invariant r == Filter(order[..k], IsCourseKey)
    {
      FilterStep(order, IsCourseKey, k);
      if !StartsWith(order[k], "event_") {
        r := r + [order[k]];
      }
    }
    assert order[..|order|] == order;
    ghost var courses := r;
    var ids := EventIds(events);
    for k := 0 to |events|
      invariant r == AppendNew(courses, ids[..k])
    {
      assert ids[..k + 1][..k] == ids[..k];
      var key := events[k].id;
      if key !in r {
        r := r + [key];
      }
    }
    assert ids[..|ids|] == ids;
  }

  // ---------------------------------------------------------------------
  // Properties of the content order

  /** Ids that are all new and pairwise different are all appended. */
  lemma {:induction false} AppendNewDisjoint(order: seq<string>, ids: seq<string>)
    requires DistinctIds(ids)
    requires forall k :: k in ids ==> k !in order
    ensures AppendNew(order, ids) == order + ids
  {
    if ids != [] {
      var init := ids[..|ids| - 1];
      var last := ids[|ids| - 1];
      AppendNewDisjoint(order, init);
      assert last !in init by {
        forall a | 0 <= a < |init| ensures init[a] != last {
          assert init[a] == ids[a];
        }
      }
      assert last !in order;
      assert order + init + [last] == order + ids;
    }
  }

  /** After a rerun the course keys keep their order and the events form
      the tail, each current event once, in slot order. */
  lemma ReconciledShape(order: seq<string>, slots: seq<EventSlot>)
    ensures Reconciled(order, SlotEvents(slots)) == Filter(order, IsCourseKey) + EventIds(SlotEvents(slots))
    ensures DistinctIds(EventIds(SlotEvents(slots)))
    ensures forall k :: k in Filter(order, IsCourseKey) ==> !IsEventKey(k)
    ensures IsSubsequence(Filter(order, IsCourseKey), order)
  {
    var ids := EventIds(SlotEvents(slots));
    SlotEventIds(slots);
    FilterIsSubsequence(order, IsCourseKey);
    AppendNewDisjoint(Filter(order, IsCourseKey), ids);
  }

  /** Course keys followed by event keys filter back to the course keys. */
  lemma KeepCourseKeys(courses: seq<string>, ids: seq<string>)
    requires forall k :: k in courses ==> IsCourseKey(k)
    requires forall k :: k in ids ==> IsEventKey(k)
    ensures Filter(courses + ids, IsCourseKey) == courses
  {
    FilterAppend(courses, ids, IsCourseKey);
    FilterAll(courses, IsCourseKey);
    FilterEmpty(ids, IsCourseKey);
    assert courses + [] == courses;
  }

  /** Reconciling course keys followed by the current event ids, each once,
      gives them back. */
  lemma ReconciledFixpoint(courses: seq<string>, slots: seq<EventSlot>)
    requires forall k :: k in courses ==> IsCourseKey(k)
    ensures Reconciled(courses + EventIds(SlotEvents(slots)), SlotEvents(slots)) == courses + EventIds(SlotEvents(slots))
  {
    var ids := EventIds(SlotEvents(slots));
    SlotEventIds(slots);
    KeepCourseKeys(courses, ids);
    AppendNewDisjoint(courses, ids);
  }

  /** A second rerun with the same events changes nothing. */
  lemma ReconcileIdempotent(order: seq<string>, slots: seq<EventSlot>)
    ensures Reconciled(Reconciled(order, SlotEvents(slots)), SlotEvents(slots)) == Reconciled(order, SlotEvents(slots))
  {
    ReconciledShape(order, slots);
    ReconciledFixpoint(Filter(order, IsCourseKey), slots);
  }

  /** The first order is already reconciled: the first rerun keeps it. */
  lemma InitialOrderStable(available: seq<string>, slots: seq<EventSlot>)
    requires forall k :: k in available ==> !IsEventKey(k)
    ensures Reconciled(InitialOrder(available, SlotEvents(slots)), SlotEvents(slots))
            == InitialOrder(available, SlotEvents(slots))
  {
    var courses := ["adults"] + Filter(available, NotAdults);
    assert !IsEventKey("adults") by {
      assert "adults"[..6][0] != "event_"[0];
    }
    ReconciledFixpoint(courses, slots);
  }

  /** The first order starts with 'adults' even when no adult course is
      available, and never repeats it. */
  lemma InitialOrderHead(ct: ContentTypes, events: seq<Event>)
    ensures InitialOrder(AvailableTypes(ct), events)[0] == "adults"
    ensures "adults" !in InitialOrder(AvailableTypes(ct), events)[1..|InitialOrder(AvailableTypes(ct), events)| - |events|]
  {
    var av := AvailableTypes(ct);
    var rest := Filter(av, NotAdults);
    var o := InitialOrder(av, events);
    assert o[1..|o| - |events|] == rest;
  }

  /** Move Up at `i` swaps the pair at `i - 1`, `i` and keeps the rest. */
  lemma SwapUpParts(order: seq<string>, i: nat)
    requires 0 < i < |order|
    ensures order == order[..i - 1] + [order[i - 1], order[i]] + order[i + 1..]
    ensures SwapUp(order, i) == order[..i - 1] + [order[i], order[i - 1]] + order[i + 1..]
  {
  }

  lemma SwapUpAt(a: seq<string>, x: string, y: string, b: seq<string>)
    ensures SwapUp(a + [x, y] + b, |a| + 1) == a + [y, x] + b
  {
    var f := a + [x, y] + b;
    SwapUpParts(f, |a| + 1);
    assert f[..|a|] == a && f[|a| + 2..] == b;
  }

  lemma FilterThree(a: seq<string>, m: seq<string>, b: seq<string>, p: string -> bool)
    ensures Filter(a + m + b, p) == Filter(a, p) + Filter(m, p) + Filter(b, p)
  {
    FilterAppend(a + m, b, p);
    FilterAppend(a, m, p);
  }

  lemma FilterPair(x: string, y: string, p: string -> bool)
    ensures Filter([x, y], p) == (if p(x) then [x] else []) + (if p(y) then [y] else [])
  {
    assert [x, y][..1] == [x];
    assert [x][..0] == [];
  }

  /** The kept keys of the order after Move Up at `i`: those before the
      pair, those of the swapped pair, those after it. */
  lemma SwapFilter(order: seq<string>, i: nat, p: string -> bool)
    requires 0 < i < |order|
    ensures var a, x, y, b := order[..i - 1], order[i - 1], order[i], order[i + 1..];
            Filter(order, p) == Filter(a, p) + Filter([x, y], p) + Filter(b, p)
            && Filter(SwapUp(order, i), p) == Filter(a, p) + Filter([y, x], p) + Filter(b, p)
  {
    var a, x, y, b := order[..i - 1], order[i - 1], order[i], order[i + 1..];
    SwapUpParts(order, i);
    FilterThree(a, [x, y], b, p);
    FilterThree(a, [y, x], b, p);
  }

  /** A swap that involves a dropped key does not show after filtering. */
  lemma SwapDropped(order: seq<string>, i: nat, p: string -> bool)
    requires 0 < i < |order|
    requires !p(order[i - 1]) || !p(order[i])
    ensures Filter(SwapUp(order, i), p) == Filter(order, p)
  {
    var x, y := order[i - 1], order[i];
    SwapFilter(order, i, p);
    FilterPair(x, y, p);
    FilterPair(y, x, p);
    assert Filter([x, y], p) == Filter([y, x], p) by {
      if !p(x) {
        assert Filter([x, y], p) == (if p(y) then [y] else []);
      } else {
        assert Filter([y, x], p) == [x];
      }
    }
  }

  lemma PairKept(x: string, y: string, p: string -> bool)
    requires p(x) && p(y)
    ensures Filter([x, y], p) == [x, y]
  {
    assert [x, y][..1] == [x];
    assert [x][..0] == [];
  }

  /** Filtering an order whose pair at `i - 1`, `i` is kept. */
  lemma SwapKeptParts(order: seq<string>, i: nat, p: string -> bool)
    requires 0 < i < |order|
    requires p(order[i - 1]) && p(order[i])
    ensures var fa, x, y, fb := Filter(order[..i - 1], p), order[i - 1], order[i], Filter(order[i + 1..], p);
            Filter(order, p) == fa + [x, y] + fb && Filter(SwapUp(order, i), p) == fa + [y, x] + fb
  {
    SwapFilter(order, i, p);
    PairKept(order[i - 1], order[i], p);
    PairKept(order[i], order[i - 1], p);
  }

  /** A swap of two kept keys shows as the same swap after filtering. */
  lemma SwapKept(order: seq<string>, i: nat, p: string -> bool)
    requires 0 < i < |order|
    requires p(order[i - 1]) && p(order[i])
    ensures |Filter(order[..i - 1], p)| + 1 < |Filter(order, p)|
    ensures Filter(SwapUp(order, i), p) == SwapUp(Filter(order, p), |Filter(order[..i - 1], p)| + 1)
  {
    var fa, x, y, fb := Filter(order[..i - 1], p), order[i - 1], order[i], Filter(order[i + 1..], p);
    var f, g := Filter(order, p), Filter(SwapUp(order, i), p);
    assert f == fa + [x, y] + fb && g == fa + [y, x] + fb by {
      SwapKeptParts(order, i, p);
    }
    assert SwapUp(fa + [x, y] + fb, |fa| + 1) == fa + [y, x] + fb by {
      SwapUpAt(fa, x, y, fb);
    }
  }

  /** Swapping an event key with its neighbour does not last: the next
      rerun puts every event back at the end in slot order. */
  lemma EventMoveUndone(order: seq<string>, i: nat, events: seq<Event>)
    requires 0 < i < |order|
    requires IsEventKey(order[i - 1]) || IsEventKey(order[i])
    ensures Reconciled(SwapUp(order, i), events) == Reconciled(order, events)
  {
    SwapDropped(order, i, IsCourseKey);
  }

  /** Swapping two course keys lasts: the course keys a rerun keeps (the
      head of the reconciled order) show the same two keys swapped. */
  lemma CourseMoveKept(order: seq<string>, i: nat)
    requires 0 < i < |order|
    requires IsCourseKey(order[i - 1]) && IsCourseKey(order[i])
    ensures |Filter(order[..i - 1], IsCourseKey)| + 1 < |Filter(order, IsCourseKey)|
    ensures Filter(SwapUp(order, i), IsCourseKey)
            == SwapUp(Filter(order, IsCourseKey), |Filter(order[..i - 1], IsCourseKey)| + 1)
  {
    SwapKept(order, i, IsCourseKey);
  }

  /** The buttons only reorder: no key is lost or repeated. */
  lemma SwapsPermute(order: seq<string>, i: nat)
    requires i < |order|
    ensures multiset(SwapUp(order, i)) == multiset(order)
    ensures multiset(SwapDown(order, i)) == multiset(order)
  {
    if i > 0 {
      SwapUpPermutes(order, i);
    }
    if i + 1 < |order| {
      SwapDownIsSwapUp(order, i);
      SwapUpPermutes(order, i + 1);
    }
  }

  lemma SwapUpPermutes(order: seq<string>, i: nat)
    requires 0 < i < |order|
    ensures multiset(SwapUp(order, i)) == multiset(order)
  {
    var a, x, y, b := order[..i - 1], order[i - 1], order[i], order[i + 1..];
    SwapUpParts(order, i);
    calc {
      multiset(SwapUp(order, i));
      multiset(a + [y, x] + b);
      multiset(a) + multiset([y, x]) + multiset(b);
      { assert multiset([y, x]) == multiset([x, y]); }
      multiset(a) + multiset([x, y]) + multiset(b);
      multiset(a + [x, y] + b);
      multiset(order);
    }
  }

  /** Move Down on a row is Move Up on the row below it. */
  lemma SwapDownIsSwapUp(order: seq<string>, i: nat)
    requires i + 1 < |order|
    ensures SwapDown(order, i) == SwapUp(order, i + 1)
  {
  }

  /** Move Up at `i` and then Move Down at `i - 1` give the order back. */
  lemma MoveUpThenDown(order: seq<string>, i: nat)
    requires 0 < i < |order|
    ensures SwapDown(SwapUp(order, i), i - 1) == order
  {
  }
}
