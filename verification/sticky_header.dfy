/** The sticky header: per scroll event, hide the header while the page moves down
    and show it again when the page moves up, always showing it near the top. */
module StickyHeader {

  /** Offsets at or below this (in pixels from the top) always show the header. */
  const TopZone: int := 100

  /** The handler's state: the closure variable lastScroll and the header's `hidden` class. */
  datatype HeaderState = HeaderState(lastScroll: int, hidden: bool)

  const Initial: HeaderState := HeaderState(0, false)

  /** One scroll event at vertical offset y, with the handler's guards as written. */
  function Scrolled(s: HeaderState, y: int): (r: HeaderState)
    ensures y <= TopZone ==> !r.hidden && r.lastScroll == s.lastScroll
    ensures y > TopZone ==> r.lastScroll == y
    ensures y > TopZone && y > s.lastScroll ==> r.hidden
    ensures y > TopZone && y < s.lastScroll ==> !r.hidden
    ensures y > TopZone && y == s.lastScroll ==> r == s
  {
    if y <= TopZone then
      s.(hidden := false)
    else
      var hidden :=
        if y > s.lastScroll && !s.hidden then true
        else if y < s.lastScroll && s.hidden then false
        else s.hidden;
      HeaderState(y, hidden)
  }

  /** The states the handler can reach from Initial: lastScroll is either the initial 0
      or an offset past the top zone, and a hidden header was hidden past the top zone. */
  ghost predicate Reachable(s: HeaderState)
  {
    (s.lastScroll == 0 || s.lastScroll > TopZone) && (s.hidden ==> s.lastScroll > TopZone)
  }

  /** A run of scroll events, in order. */
  function ScrolledAll(s: HeaderState, ys: seq<int>): (r: HeaderState)
    ensures ys != [] && ys[|ys| - 1] <= TopZone ==> !r.hidden
  {
    if ys == [] then s else Scrolled(ScrolledAll(s, ys[..|ys| - 1]), ys[|ys| - 1])
  }

  lemma ScrolledKeepsReachable(s: HeaderState, y: int)
    requires Reachable(s)
    ensures Reachable(Scrolled(s, y))
  {
  }

  /** Every state reached from Initial by any run of scroll events is Reachable. */
  lemma {:induction false} RunsStayReachable(ys: seq<int>)
    ensures Reachable(ScrolledAll(Initial, ys))
  {
    if ys != [] {
      RunsStayReachable(ys[..|ys| - 1]);
      ScrolledKeepsReachable(ScrolledAll(Initial, ys[..|ys| - 1]), ys[|ys| - 1]);
    }
  }

  /** In a reachable state an event at the last recorded offset changes nothing,
      including inside the top zone. */
  lemma EqualOffsetChangesNothing(s: HeaderState, y: int)
    requires Reachable(s) && y == s.lastScroll
    ensures Scrolled(s, y) == s
  {
  }

  /** The header element, updated in place by the scroll listener. */
  class Header {
    var lastScroll: int
    var hidden: bool

    function State(): HeaderState
      reads this
    {
      HeaderState(lastScroll, hidden)
    }

    constructor ()
      ensures State() == Initial
    {
      lastScroll := 0;
      hidden := false;
    }

    method OnScroll(y: int)
      modifies this
      ensures State() == Scrolled(old(State()), y)
      ensures old(Reachable(State())) ==> Reachable(State())
    {
      if y <= TopZone {
        hidden := false;
        return;
      }
      if y > lastScroll && !hidden {
        hidden := true;
      } else if y < lastScroll && hidden {
        hidden := false;
      }
      lastScroll := y;
    }
  }
}
