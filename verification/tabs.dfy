/**
 * The section-visibility dispatcher of the main page (JS/MainPage/mainPage.js):
 * the `SiteTabs` registry of per-section `onEnter`/`onLeave` callbacks, the
 * active-link tracker driven by clicks, keys and hover, and the handling of
 * intersection-observer batches.
 *
 * The navigation links are the sequence of section ids their `href`s point at,
 * in document order; a link is identified by its index. Callbacks are not run:
 * each dispatch is recorded as an `Event` in `trace`.
 */
module Tabs {
  import opened Wrappers

  /** Which callbacks a registered section supplied (`typeof fn === 'function'`). */
  datatype Pair = Pair(onEnter: bool, onLeave: bool)

  /** One dispatched lifecycle callback. */
  datatype Event = Enter(id: string) | Leave(id: string)

  /** One intersection-observer entry: the observed section's id and whether it intersects. */
  datatype Entry = Entry(id: string, isIntersecting: bool)

  /** The dispatcher's observable state besides the registry: the link carrying
      `active` (`currentActive`), `lastVisibleId`, and every callback dispatched so far. */
  datatype Dispatch = Dispatch(current: Option<nat>, lastVisible: Option<string>, trace: seq<Event>)

  /** `header nav a[href="#id"]`: the first link, in document order, that targets `id`. */
  function FirstLink(links: seq<string>, id: string): (r: Option<nat>)
    ensures r.None? <==> id !in links
    ensures r.Some? ==> r.value < |links| && links[r.value] == id
    ensures r.Some? ==> forall j :: 0 <= j < r.value ==> links[j] != id
  {
    FirstLinkFrom(links, id, 0)
  }

  function FirstLinkFrom(links: seq<string>, id: string, k: nat): (r: Option<nat>)
    requires k <= |links|
    decreases |links| - k
    ensures r.None? ==> forall j :: k <= j < |links| ==> links[j] != id
    ensures r.Some? ==> k <= r.value < |links| && links[r.value] == id
    ensures r.Some? ==> forall j :: k <= j < r.value ==> links[j] != id
  {
    if k == |links| then None
    else if links[k] == id then Some(k)
    else FirstLinkFrom(links, id, k + 1)
  }

  /** The `active` class of each link when `current` is the only link that carries it. */
  function Marks(n: nat, current: Option<nat>): (r: seq<bool>)
    ensures |r| == n
    ensures forall j :: 0 <= j < n ==> (r[j] <==> current == Some(j))
    ensures forall j, k :: 0 <= j < n && 0 <= k < n && r[j] && r[k] ==> j == k
  {
    seq(n, j requires 0 <= j < n => current == Some(j))
  }

  /** What dispatching `onEnter` for `id` records: one `Enter(id)` exactly when
      `id` is registered with an `onEnter` function. */
  function EnterEvents(handlers: map<string, Pair>, id: string): (r: seq<Event>)
    ensures |r| <= 1 && forall ev :: ev in r ==> ev == Enter(id)
    ensures r != [] <==> id in handlers && handlers[id].onEnter
  {
    if id in handlers && handlers[id].onEnter then [Enter(id)] else []
  }

  /** What dispatching `onLeave` for the previously visible section records when
      `id` becomes visible: `lastVisibleId` must be truthy (set and non-empty),
      differ from `id`, and be registered with an `onLeave` function. */
  function LeaveEvents(handlers: map<string, Pair>, lastVisible: Option<string>, id: string): (r: seq<Event>)
    ensures |r| <= 1 && forall ev :: ev in r ==> ev.Leave? && lastVisible == Some(ev.id) && ev.id != id
    ensures r != [] <==> lastVisible.Some? && lastVisible.value != "" && lastVisible.value != id
                         && lastVisible.value in handlers && handlers[lastVisible.value].onLeave
  {
    if lastVisible.Some? && lastVisible.value != "" && lastVisible.value != id
       && lastVisible.value in handlers && handlers[lastVisible.value].onLeave
    then [Leave(lastVisible.value)]
    else []
  }

  /** The click handler on link `i`: nothing when its section is absent; otherwise
      the link becomes the active one and the section's `onEnter` is dispatched. */
  function ClickStep(links: seq<string>, present: set<string>, handlers: map<string, Pair>,
                     d: Dispatch, i: nat): (r: Dispatch)
    requires i < |links|
    ensures links[i] !in present ==> r == d
    ensures links[i] in present ==> r.current == Some(i)
    ensures r.lastVisible == d.lastVisible
    ensures |d.trace| <= |r.trace| <= |d.trace| + 1 && r.trace[..|d.trace|] == d.trace
    ensures links[i] in present && links[i] in handlers && handlers[links[i]].onEnter ==>
              r.trace == d.trace + [Enter(links[i])]
    ensures forall k :: |d.trace| <= k < |r.trace| ==>
              r.trace[k] == Enter(links[i]) && links[i] in present
              && links[i] in handlers && handlers[links[i]].onEnter
  {
    if links[i] !in present then d
    else Dispatch(Some(i), d.lastVisible, d.trace + EnterEvents(handlers, links[i]))
  }

  /** An entry counts when it intersects and some link targets its section. */
  predicate Hit(links: seq<string>, e: Entry)
  {
    e.isIntersecting && e.id in links
  }

  /** One entry of an intersection batch. */
  function StepEntry(links: seq<string>, handlers: map<string, Pair>, d: Dispatch, e: Entry): (r: Dispatch)
    ensures !Hit(links, e) ==> r == d
    ensures Hit(links, e) ==> r.lastVisible == Some(e.id) && r.current == FirstLink(links, e.id)
  {
    match FirstLink(links, e.id)
    case None => d
    case Some(i) =>
      if !e.isIntersecting then d
      else Dispatch(Some(i), Some(e.id),
                    d.trace + EnterEvents(handlers, e.id) + LeaveEvents(handlers, d.lastVisible, e.id))
  }

  /** A whole batch, entries in report order. */
  function StepBatch(links: seq<string>, handlers: map<string, Pair>, d: Dispatch, entries: seq<Entry>): (r: Dispatch)
    decreases |entries|
    ensures |d.trace| <= |r.trace| && r.trace[..|d.trace|] == d.trace
    ensures r.lastVisible == d.lastVisible || (r.lastVisible.Some? && r.lastVisible.value in links)
  {
    if |entries| == 0 then d
    else StepEntry(links, handlers, StepBatch(links, handlers, d, entries[..|entries| - 1]), entries[|entries| - 1])
  }

  /** What one intersecting, linked entry dispatches: `onEnter` for the new
      section exactly when it is registered, `onLeave` for the previous section
      exactly when that one was last visible, is non-empty, differs and is
      registered, and, when both are dispatched, `onEnter` first. */
  lemma EntryDispatchOrder(handlers: map<string, Pair>, lastVisible: Option<string>, id: string)
    ensures var out := EnterEvents(handlers, id) + LeaveEvents(handlers, lastVisible, id);
      && |out| <= 2
      && (Enter(id) in out <==> id in handlers && handlers[id].onEnter)
      && (forall ev :: ev in out && ev.Enter? ==> ev.id == id)
      && (forall x: string :: Leave(x) in out <==>
            (lastVisible == Some(x) && x != "" && x != id && x in handlers && handlers[x].onLeave))
      && (|out| == 2 ==> out[0] == Enter(id) && out[1].Leave?)
  {
  }

  /** The same for the step itself: an intersecting, linked entry keeps the trace
      so far and appends at most two callbacks, `onEnter` for its own section
      exactly when registered, `onLeave` for the previously visible section
      exactly when it is non-empty, differs and is registered, `onEnter` first. */
  lemma StepEntryDispatches(links: seq<string>, handlers: map<string, Pair>, d: Dispatch, e: Entry)
    requires Hit(links, e)
    ensures var r := StepEntry(links, handlers, d, e);
      && |d.trace| <= |r.trace| && r.trace[..|d.trace|] == d.trace
      && var out := r.trace[|d.trace|..];
      && |out| <= 2
      && (Enter(e.id) in out <==> e.id in handlers && handlers[e.id].onEnter)
      && (forall ev :: ev in out && ev.Enter? ==> ev.id == e.id)
      && (forall x: string :: Leave(x) in out <==>
            (d.lastVisible == Some(x) && x != "" && x != e.id && x in handlers && handlers[x].onLeave))
      && (|out| == 2 ==> out[0] == Enter(e.id) && out[1].Leave?)
  {
    var r := StepEntry(links, handlers, d, e);
    var out := EnterEvents(handlers, e.id) + LeaveEvents(handlers, d.lastVisible, e.id);
    assert r.trace == d.trace + out;
    assert r.trace[|d.trace|..] == out && r.trace[..|d.trace|] == d.trace;
    EntryDispatchOrder(handlers, d.lastVisible, e.id);
  }

  /** A batch in which no entry hits changes neither `lastVisibleId` nor the
      active link, and dispatches nothing. */
  lemma {:induction false} BatchWithoutHit(links: seq<string>, handlers: map<string, Pair>,
                                           d: Dispatch, entries: seq<Entry>)
    requires forall k :: 0 <= k < |entries| ==> !Hit(links, entries[k])
    ensures StepBatch(links, handlers, d, entries) == d
    decreases |entries|
  {
    if |entries| > 0 {
      var init := entries[..|entries| - 1];
      assert forall k :: 0 <= k < |init| ==> init[k] == entries[k];
      BatchWithoutHit(links, handlers, d, init);
    }
  }

  /** Last writer wins: when entry `k` is the last entry of a batch that hits,
      the batch leaves `lastVisibleId` at that entry's id and the active link at
      that section's first link. */
  lemma {:induction false} BatchLastWriterWins(links: seq<string>, handlers: map<string, Pair>,
                                               d: Dispatch, entries: seq<Entry>, k: nat)
    requires k < |entries| && Hit(links, entries[k])
    requires forall j :: k < j < |entries| ==> !Hit(links, entries[j])
    ensures StepBatch(links, handlers, d, entries).lastVisible == Some(entries[k].id)
    ensures StepBatch(links, handlers, d, entries).current == FirstLink(links, entries[k].id)
    decreases |entries|
  {
    var init := entries[..|entries| - 1];
    if k < |entries| - 1 {
      assert forall j :: 0 <= j < |init| ==> init[j] == entries[j];
      BatchLastWriterWins(links, handlers, d, init, k);
    }
  }

  /** The ids of the entries of a batch that hit. */
  function HitIds(links: seq<string>, entries: seq<Entry>): set<string>
  {
    set k | 0 <= k < |entries| && Hit(links, entries[k]) :: entries[k].id
  }

  /** A batch only appends to the trace; every `Enter` it dispatches is for a
      registered section some entry of the batch made visible; every `Leave` is
      for a registered, non-empty section id that was the last visible one before
      the batch or was made visible by an entry of the batch. In particular, when
      no section was visible before, no `Leave` is dispatched for a section the
      batch did not make visible. */
  lemma {:induction false} BatchDispatchesOnlyVisited(links: seq<string>, handlers: map<string, Pair>,
                                                      d: Dispatch, entries: seq<Entry>)
    ensures var r := StepBatch(links, handlers, d, entries);
      && |d.trace| <= |r.trace| && r.trace[..|d.trace|] == d.trace
      && (forall k :: |d.trace| <= k < |r.trace| && r.trace[k].Enter? ==>
            r.trace[k].id in HitIds(links, entries)
            && r.trace[k].id in handlers && handlers[r.trace[k].id].onEnter)
      && (forall k :: |d.trace| <= k < |r.trace| && r.trace[k].Leave? ==>
            (d.lastVisible == Some(r.trace[k].id) || r.trace[k].id in HitIds(links, entries))
            && r.trace[k].id != ""
            && r.trace[k].id in handlers && handlers[r.trace[k].id].onLeave)
    decreases |entries|
  {
    if |entries| > 0 {
      var init := entries[..|entries| - 1];
      var e := entries[|entries| - 1];
      BatchDispatchesOnlyVisited(links, handlers, d, init);
      var mid := StepBatch(links, handlers, d, init);
      var r := StepEntry(links, handlers, mid, e);
      assert HitIds(links, init) <= HitIds(links, entries) by {
        forall x | x in HitIds(links, init) ensures x in HitIds(links, entries) {
          var k :| 0 <= k < |init| && Hit(links, init[k]) && init[k].id == x;
          assert entries[k] == init[k];
        }
      }
      if Hit(links, e) {
        assert e.id in HitIds(links, entries) by {
          assert entries[|entries| - 1] == e;
        }
        assert mid.lastVisible.Some? ==> mid.lastVisible == d.lastVisible
                                         || mid.lastVisible.value in HitIds(links, init) by {
          if forall k :: 0 <= k < |init| ==> !Hit(links, init[k]) {
            BatchWithoutHit(links, handlers, d, init);
          } else {
            var k := LastHitIndex(links, init);
            BatchLastWriterWins(links, handlers, d, init, k);
          }
        }
        assert r.trace == mid.trace + EnterEvents(handlers, e.id) + LeaveEvents(handlers, mid.lastVisible, e.id);
      }
    }
  }

  /** Before any section was visible, the entries up to and including the first
      one that hits dispatch no `onLeave` at all. */
  lemma NoLeaveBeforeFirstHit(links: seq<string>, handlers: map<string, Pair>,
                              d: Dispatch, entries: seq<Entry>, k: nat)
    requires d.lastVisible == None
    requires k < |entries| && forall j :: 0 <= j < k ==> !Hit(links, entries[j])
    ensures var r := StepBatch(links, handlers, d, entries[..k + 1]);
      |d.trace| <= |r.trace| && forall t :: |d.trace| <= t < |r.trace| ==> r.trace[t].Enter?
  {
    var prefix := entries[..k + 1];
    assert prefix[..|prefix| - 1] == entries[..k];
    BatchWithoutHit(links, handlers, d, entries[..k]);
  }

  /** The index of the last entry of a batch that hits, when there is one. */
  lemma LastHitIndex(links: seq<string>, entries: seq<Entry>) returns (k: nat)
    requires exists j :: 0 <= j < |entries| && Hit(links, entries[j])
    ensures k < |entries| && Hit(links, entries[k])
    ensures forall j :: k < j < |entries| ==> !Hit(links, entries[j])
  {
    k := |entries| - 1;
    while !Hit(links, entries[k])
      invariant 0 <= k < |entries|
      invariant forall j :: k < j < |entries| ==> !Hit(links, entries[j])
      decreases k
    {
      k := k - 1;
    }
  }

  /** Two sections in turn: the first intersecting entry dispatches no `onLeave`;
      the second dispatches `onEnter` for the new section and then `onLeave` for
      the old one, and moves the active link. */
  lemma TwoSectionScenario()
    ensures var links := ["section1", "section2", "section4"];
      var handlers := map["section2" := Pair(true, true), "section4" := Pair(true, true)];
      var d1 := StepBatch(links, handlers, Dispatch(None, None, []), [Entry("section2", true)]);
      var d2 := StepBatch(links, handlers, d1, [Entry("section4", true)]);
      && d1 == Dispatch(Some(1), Some("section2"), [Enter("section2")])
      && d2 == Dispatch(Some(2), Some("section4"), [Enter("section2"), Enter("section4"), Leave("section2")])
  {
  }

  /** The state kept by the main page's `DOMContentLoaded` handler: the links and
      the sections they target, the registry (`handlers`), `currentActive`,
      `lastVisibleId`, the `active`/`preview` classes of every link, and the
      record of dispatched callbacks. */
  class SiteTabs {
    /** The section id each navigation link targets, in document order. */
    const links: seq<string>
    /** The ids for which the page has an element (`document.getElementById`). */
    const present: set<string>
    /** Whether an intersection observer watches the sections. */
    const observing: bool
    /** Per link: does it carry the `active` class? */
    const activeMark: array<bool>
    /** Per link: does it carry the `preview` class? */
    const previewMark: array<bool>

    var handlers: map<string, Pair>
    var current: Option<nat>
    var lastVisible: Option<string>
    var trace: seq<Event>

    /** At most one link is active, and it is `currentActive`; `lastVisibleId`
        always names a section some link targets. */
    ghost predicate Valid()
      reads this, activeMark, previewMark
    {
      && activeMark.Length == |links| && previewMark.Length == |links| && activeMark != previewMark
      && (current.Some? ==> current.value < |links|)
      && activeMark[..] == Marks(|links|, current)
      && (lastVisible.Some? ==> lastVisible.value in links)
    }

    /** At most one link carries `active`. */
    lemma AtMostOneActive(j: nat, k: nat)
      requires Valid() && j < |links| && k < |links| && activeMark[j] && activeMark[k]
      ensures j == k
    {
      assert activeMark[..][j] && activeMark[..][k];
    }

    function Snapshot(): Dispatch
      reads this
    {
      Dispatch(current, lastVisible, trace)
    }

    /** Page load. The observer exists when the platform offers one and at least
        one link targets an existing section; otherwise the first link is made
        active straight away. */
    constructor (links: seq<string>, present: set<string>, hasObserver: bool)
      ensures Valid() && fresh(activeMark) && fresh(previewMark)
      ensures this.links == links && this.present == present
      ensures observing == (hasObserver && exists j :: 0 <= j < |links| && links[j] in present)
      ensures handlers == map[] && lastVisible == None && trace == []
      ensures current == if !observing && |links| > 0 then Some(0) else None
      ensures forall j :: 0 <= j < |links| ==> !previewMark[j]
    {
      var watching := hasObserver && exists j | 0 <= j < |links| :: links[j] in present;
      var first: Option<nat> := if !watching && |links| > 0 then Some(0) else None;
      this.links := links;
      this.present := present;
      observing := watching;
      activeMark := new bool[|links|](j => first == Some(j));
      previewMark := new bool[|links|](j => false);
      handlers := map[];
      current := first;
      lastVisible := None;
      trace := [];
    }

    /** `SiteTabs.register`: stores the pair under `id`, replacing any earlier one. */
    method Register(id: string, p: Pair)
      requires Valid()
      modifies this
      ensures Valid()
      ensures handlers == old(handlers)[id := p]
      ensures Snapshot() == old(Snapshot())
    {
      handlers := handlers[id := p];
    }

    /** `setActive`: clears `active` on every link, then sets it on link `i`. */
    method SetActive(i: nat)
      requires Valid() && i < |links|
      modifies this, activeMark
      ensures Valid()
      ensures current == Some(i)
      ensures forall j :: 0 <= j < |links| ==> (activeMark[j] <==> j == i)
      ensures lastVisible == old(lastVisible) && trace == old(trace) && handlers == old(handlers)
    {
      var k := 0;
      while k < activeMark.Length
        invariant 0 <= k <= activeMark.Length
        invariant forall j :: 0 <= j < k ==> !activeMark[j]
        modifies activeMark
      {
        activeMark[k] := false;
        k := k + 1;
      }
      current := Some(i);
      activeMark[i] := true;
      assert activeMark[..] == Marks(|links|, current);
    }

    /** The click handler of link `i`. */
    method Click(i: nat)
      requires Valid() && i < |links|
      modifies this, activeMark
      ensures Valid()
      ensures Snapshot() == ClickStep(links, present, handlers, old(Snapshot()), i)
      ensures handlers == old(handlers)
    {
      var id := links[i];
      if id !in present {
        return;
      }
      SetActive(i);
      if id in handlers && handlers[id].onEnter {
        trace := trace + [Enter(id)];
      }
    }

    /** The keydown handler of link `i`: Enter and Space act as a click. */
    method KeyDown(i: nat, key: string)
      requires Valid() && i < |links|
      modifies this, activeMark
      ensures Valid()
      ensures Snapshot() == if key == "Enter" || key == " "
                            then ClickStep(links, present, handlers, old(Snapshot()), i)
                            else old(Snapshot())
      ensures handlers == old(handlers)
    {
      if key == "Enter" || key == " " {
        Click(i);
      }
    }

    /** `SiteTabs.activate`: clicks the first link that targets `id`, if any. */
    method Activate(id: string)
      requires Valid()
      modifies this, activeMark
      ensures Valid()
      ensures Snapshot() == match FirstLink(links, id)
                            case None => old(Snapshot())
                            case Some(i) => ClickStep(links, present, handlers, old(Snapshot()), i)
      ensures handlers == old(handlers)
    {
      var link := FirstLink(links, id);
      if link.Some? {
        Click(link.value);
      }
    }

    /** The `mouseenter` handler of link `i`: it becomes the only previewed link. */
    method MouseEnter(i: nat)
      requires Valid() && i < |links|
      modifies previewMark
      ensures Valid()
      ensures forall j :: 0 <= j < |links| ==> (previewMark[j] <==> j == i)
      ensures activeMark[..] == old(activeMark[..])
    {
      var k := 0;
      while k < previewMark.Length
        invariant 0 <= k <= previewMark.Length
        invariant forall j :: 0 <= j < k ==> !previewMark[j]
      {
        previewMark[k] := false;
        k := k + 1;
      }
      previewMark[i] := true;
    }

    /** The `mouseleave` handler of link `i`: drops its preview and re-adds
        `active` to `currentActive`, which already carries it. */
    method MouseLeave(i: nat)
      requires Valid() && i < |links|
      modifies previewMark, activeMark
      ensures Valid()
      ensures previewMark[..] == old(previewMark[..])[i := false]
      ensures activeMark[..] == old(activeMark[..])
    {
      previewMark[i] := false;
      if current.Some? {
        activeMark[current.value] := true;
      }
    }

    /** The observer callback: the entries of one batch, in report order. */
    method OnIntersect(entries: seq<Entry>)
      requires Valid() && observing
      modifies this, activeMark
      ensures Valid()
      ensures Snapshot() == StepBatch(links, handlers, old(Snapshot()), entries)
      ensures handlers == old(handlers)
    {
      var n := 0;
      while n < |entries|
        invariant 0 <= n <= |entries|
        invariant Valid() && handlers == old(handlers)
        invariant Snapshot() == StepBatch(links, handlers, old(Snapshot()), entries[..n])
      {
        var e := entries[n];
        var link := FirstLink(links, e.id);
        if link.Some? && e.isIntersecting {
          SetActive(link.value);
          if e.id in handlers && handlers[e.id].onEnter {
            trace := trace + [Enter(e.id)];
          }
          if lastVisible.Some? && lastVisible.value != "" && lastVisible.value != e.id {
            var prev := lastVisible.value;
            if prev in handlers && handlers[prev].onLeave {
              trace := trace + [Leave(prev)];
            }
          }
          lastVisible := Some(e.id);
        }
        assert entries[..n + 1][..n] == entries[..n];
        n := n + 1;
      }
      assert entries[..n] == entries;
    }

    /** The timer set at load: makes the first link active, if there is one. */
    method InitialTimer()
      requires Valid()
      modifies this, activeMark
      ensures Valid()
      ensures Snapshot() == if |links| > 0 then Dispatch(Some(0), old(lastVisible), old(trace))
                            else old(Snapshot())
      ensures handlers == old(handlers)
    {
      if |links| > 0 {
        SetActive(0);
      }
    }
  }
}
