/** AtomicMaxInt64 as interleaved atomic steps of any number of calls on one cell (xoputil/atomic.go). */
module AtomicMax {

  datatype Pc = Load | CompareAndSwap(was: int) | Returned(result: int)

  datatype Call = Call(value: int, pc: Pc)

  datatype State = State(cell: int, calls: map<nat, Call>)

  function Next(s: State, t: nat): State
    requires t in s.calls
  {
    var c := s.calls[t];
    match c.pc
    case Load => s.(calls := s.calls[t := c.(pc := if s.cell >= c.value then Returned(s.cell) else CompareAndSwap(s.cell))])
    case CompareAndSwap(was) =>
      if s.cell == was then State(c.value, s.calls[t := c.(pc := Returned(c.value))])
      else s.(calls := s.calls[t := c.(pc := Load)])
    case Returned(_) => s
  }

  function Run(s: State, schedule: seq<nat>): State {
    if schedule == [] then s
    else
      var r := Run(s, schedule[..|schedule| - 1]);
      var t := schedule[|schedule| - 1];
      if t in r.calls then Next(r, t) else r
  }

  predicate Init(s: State) {
    forall t :: t in s.calls ==> s.calls[t].pc == Load
  }

  /** The cell only grows, and it holds the start value or the value of a call that has returned. */
  ghost predicate Inv(start: int, s: State) {
    && start <= s.cell
    && (s.cell == start || exists t :: t in s.calls && s.calls[t].pc == Returned(s.cell) && s.calls[t].value == s.cell)
    && forall t :: t in s.calls ==>
         match s.calls[t].pc
         case Load => true
         case CompareAndSwap(was) => start <= was <= s.cell && was < s.calls[t].value
         case Returned(r) => start <= r <= s.cell && s.calls[t].value <= r
  }

  lemma StepKeeps(start: int, s: State, t: nat)
    requires Inv(start, s) && t in s.calls
    ensures Inv(start, Next(s, t)) && s.cell <= Next(s, t).cell
  {
    var s' := Next(s, t);
    if s'.cell != s.cell {
      assert s'.calls[t].pc == Returned(s'.cell);
    } else if s.cell != start {
      var u :| u in s.calls && s.calls[u].pc == Returned(s.cell) && s.calls[u].value == s.cell;
      assert s'.calls[u] == s.calls[u];
    }
  }

  /** Under every schedule: a returned call leaves the cell at least at its own value, what it returns was the cell's
      content when it took effect, and a swap fails only because another call has raised the cell meanwhile. */
  lemma {:induction false} Reachable(s: State, schedule: seq<nat>)
    requires Init(s)
    ensures var r := Run(s, schedule);
            && Inv(s.cell, r) && r.calls.Keys == s.calls.Keys
            && (forall t :: t in s.calls ==> r.calls[t].value == s.calls[t].value)
            && (forall t :: t in r.calls && r.calls[t].pc.CompareAndSwap? && Next(r, t).calls[t].pc == Load ==> r.calls[t].pc.was < r.cell)
  {
    if schedule != [] {
      var before, t := schedule[..|schedule| - 1], schedule[|schedule| - 1];
      Reachable(s, before);
      var r := Run(s, before);
      if t in r.calls {
        StepKeeps(s.cell, r, t);
      }
    }
  }

  /** Once all calls have returned the cell holds the maximum of its start value and all the values. */
  lemma FinalMax(s: State, schedule: seq<nat>)
    requires Init(s)
    requires forall t :: t in Run(s, schedule).calls ==> Run(s, schedule).calls[t].pc.Returned?
    ensures var m := Run(s, schedule).cell;
            && s.cell <= m && (forall t :: t in s.calls ==> s.calls[t].value <= m)
            && (m == s.cell || exists t :: t in s.calls && s.calls[t].value == m)
  {
    Reachable(s, schedule);
    var r := Run(s, schedule);
    if r.cell != s.cell {
      var t :| t in r.calls && r.calls[t].pc == Returned(r.cell) && r.calls[t].value == r.cell;
      assert s.calls[t].value == r.cell;
    }
  }
}
