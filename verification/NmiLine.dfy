/**
 The NMI line: devices pull it, the CPU polls a latched edge. Assert and deassert
 run under a lock, the poll does not, so a poll may fall between the two halves
 of an assert. The history counts rising edges of the OR-ed line and services.
 */
module NmiLine {

  type Device = d: nat | d < 32

  /** `asserting` is a device inside assert, past the edge test and before its bit is set. */
  datatype Line = Line(active: set<Device>, flank: bool, asserting: set<Device>)

  datatype Event =
    | BeginAssert(device: Device)  // test the line, latch an edge if it was quiet
    | EndAssert                    // set the device's bit, release the lock
    | Deassert(device: Device)
    | Poll                         // take and clear the latch

  const IDLE := Line({}, false, {})

  /** Whether the lock allows the event now. */
  predicate Enabled(line: Line, e: Event) {
    match e
    case BeginAssert(_) => line.asserting == {}
    case EndAssert => line.asserting != {}
    case Deassert(_) => line.asserting == {}
    case Poll => true
  }

  function Step(line: Line, e: Event): Line {
    match e
    case BeginAssert(d) => line.(flank := line.flank || line.active == {}, asserting := {d})
    case EndAssert => line.(active := line.active + line.asserting, asserting := {})
    case Deassert(d) => line.(active := line.active - {d})
    case Poll => line.(flank := false)
  }

  /** The line as a wire: pulled by any device, or by one about to be noted. */
  predicate Pulled(line: Line) {
    line.active + line.asserting != {}
  }

  predicate Rises(line: Line, e: Event) {
    !Pulled(line) && Pulled(Step(line, e))
  }

  predicate Serves(line: Line, e: Event) {
    e.Poll? && line.flank
  }

  /** What happened over a run: rising edges, services, and edges since the last service. */
  datatype History = History(edges: nat, services: nat, unserved: nat)

  function Note(h: History, line: Line, e: Event): History {
    if Rises(line, e) then h.(edges := h.edges + 1, unserved := h.unserved + 1)
    else if Serves(line, e) then h.(services := h.services + 1, unserved := 0)
    else h
  }

  predicate Allowed(line: Line, events: seq<Event>)
    decreases |events|
  {
    events == [] || (Enabled(line, events[0]) && Allowed(Step(line, events[0]), events[1..]))
  }

  function Run(line: Line, events: seq<Event>): Line
    decreases |events|
  {
    if events == [] then line else Run(Step(line, events[0]), events[1..])
  }

  function Record(h: History, line: Line, events: seq<Event>): History
    decreases |events|
  {
    if events == [] then h else Record(Note(h, line, events[0]), Step(line, events[0]), events[1..])
  }

  /**
   In every interleaving an edge is pending exactly when the line has risen since
   the last service: none is lost, and a line held down is served once. Services
   and a pending edge never outnumber the edges.
   */
  lemma {:induction false} EdgesAreServed(line: Line, h: History, events: seq<Event>)
    requires Allowed(line, events)
    requires line.flank <==> h.unserved > 0
    requires h.services + (if line.flank then 1 else 0) <= h.edges
    ensures var r, end := Record(h, line, events), Run(line, events);
            && (end.flank <==> r.unserved > 0)
            && r.services + (if end.flank then 1 else 0) <= r.edges
    decreases |events|
  {
    if events != [] {
      var e := events[0];
      EdgeIsLatched(line, e);
      EdgesAreServed(Step(line, e), Note(h, line, e), events[1..]);
    }
  }

  /** A permitted event latches exactly when the wire rises, and only a poll clears the latch. */
  lemma EdgeIsLatched(line: Line, e: Event)
    requires Enabled(line, e)
    ensures Step(line, e).flank <==> Rises(line, e) || (line.flank && !e.Poll?)
  {
    if e.EndAssert? {
      assert Pulled(line) by {
        var d :| d in line.asserting;
        assert d in line.active + line.asserting;
      }
    } else if e.BeginAssert? {
      assert e.device in Step(line, e).active + Step(line, e).asserting;
      assert line.active + line.asserting == line.active;
    } else if e.Deassert? {
      assert line.active + line.asserting == line.active;
      assert Step(line, e).active + Step(line, e).asserting == line.active - {e.device};
      if line.active == {} {
        assert line.active - {e.device} == {};
      }
    } else {
      assert Step(line, e).active + Step(line, e).asserting == line.active + line.asserting;
    }
  }

  /** While some device holds the line, nothing but a pending edge is ever served. */
  lemma {:induction false} HeldLineFiresOnce(line: Line, events: seq<Event>, holder: Device)
    requires Allowed(line, events) && holder in line.active && !line.flank
    requires forall e | e in events :: e != Deassert(holder)
    ensures Record(History(0, 0, 0), line, events) == History(0, 0, 0)
    decreases |events|
  {
    if events != [] {
      var e := events[0];
      assert e in events && forall f | f in events[1..] :: f in events;
      EdgeIsLatched(line, e);
      assert holder in line.active + line.asserting;
      assert holder in Step(line, e).active;
      HeldLineFiresOnce(Step(line, e), events[1..], holder);
    }
  }

  /** The latch as the core holds it. */
  class Latch {
    var bmNmi: set<Device>
    var nmiFlank: bool

    constructor ()
      ensures Now() == IDLE
    {
      bmNmi, nmiFlank := {}, false;
    }

    function Now(): Line
      reads this
    {
      Line(bmNmi, nmiFlank, {})
    }

    method Assert(device: Device)
      modifies this
      ensures Now() == Step(Step(old(Now()), BeginAssert(device)), EndAssert)
    {
      if bmNmi == {} {
        nmiFlank := true;
      }
      bmNmi := bmNmi + {device};
    }

    method Deassert(device: Device)
      modifies this
      ensures Now() == Step(old(Now()), Event.Deassert(device))
    {
      bmNmi := bmNmi - {device};
    }

    method Poll() returns (serve: bool)
      modifies this
      ensures Now() == Step(old(Now()), Event.Poll) && serve == Serves(old(Now()), Event.Poll)
    {
      serve := nmiFlank;
      nmiFlank := false;
    }
  }
}
