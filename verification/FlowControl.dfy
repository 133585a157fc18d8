// The credit window over whole histories.
module FlowControl {
  import opened Bytes
  import opened Stream
  import opened Session

  datatype Event = Reserve(n: nat) | Update(limit: nat)

  function Apply(w: Flow, e: Event): Flow {
    match e
    case Reserve(n) => w.Reserve(n).0
    case Update(l) => w.UpdateLimit(l)
  }

  function After(initial: nat, events: seq<Event>): Flow {
    if events == [] then Flow(initial, 0) else Apply(After(initial, events[..|events| - 1]), events[|events| - 1])
  }

  // The largest limit ever announced.
  function Highest(initial: nat, events: seq<Event>): nat {
    if events == [] then initial
    else
      var front, last := events[..|events| - 1], events[|events| - 1];
      if last.Update? && last.limit > Highest(initial, front) then last.limit else Highest(initial, front)
  }

  // Bytes of the reservations that fit below the largest limit announced before them.
  function Granted(initial: nat, events: seq<Event>): (g: nat)
    ensures g <= Highest(initial, events)
  {
    if events == [] then 0
    else
      var front, last := events[..|events| - 1], events[|events| - 1];
      var g := Granted(initial, front);
      if last.Reserve? && g + last.n <= Highest(initial, front) then g + last.n else g
  }

  // Over any history consumed is what was granted and the limit the largest announced. The next reservation succeeds
  // exactly when it still fits, and otherwise reports what is left and changes nothing.
  lemma {:induction false} WindowHistory(initial: nat, events: seq<Event>, n: nat)
    ensures var w, g, h := After(initial, events), Granted(initial, events), Highest(initial, events);
      && w == Flow(h, g)
      && w.Reserve(n) == if g + n <= h then (Flow(h, g + n), Ok(())) else (w, Err(FlowControlBlocked(h - g, n)))
  {
    if events != [] { WindowHistory(initial, events[..|events| - 1], 0); }
  }

  class FlowWindow {
    var limit: nat
    var consumed: nat

    ghost function View(): Flow
      reads this
    {
      Flow(limit, consumed)
    }

    constructor (initial: nat)
      ensures View() == Flow(initial, 0)
    {
      limit, consumed := initial, 0;
    }

    method TryReserve(n: nat) returns (r: Outcome<()>)
      modifies this`consumed
      ensures (View(), r) == old(View()).Reserve(n)
    {
      if consumed + n > limit {
        return Err(FlowControlBlocked(SaturatingSub(limit, consumed), n));
      }
      consumed := consumed + n;
      return Ok(());
    }

    method UpdateLimit(newLimit: nat)
      modifies this`limit
      ensures View() == old(View()).UpdateLimit(newLimit)
    {
      if newLimit > limit {
        limit := newLimit;
      }
    }
  }
}
