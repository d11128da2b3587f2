/** The one-slot wake signal of the JavaScript loop (`createServeWakeSignal`).  */
module ServeSignal {

  /** `pending` remembers a wake nobody waited for; `parked` is an installed resolver. */
  datatype Signal = Signal(pending: bool, parked: bool)

  function Wait(signal: Signal): Signal {
    if signal.pending then signal.(pending := false) else signal.(parked := true)
  }

  function Wake(signal: Signal): Signal {
    if signal.parked then signal.(parked := false) else signal.(pending := true)
  }

  function Wakes(signal: Signal, n: nat): Signal {
    if n == 0 then signal else Wake(Wakes(signal, n - 1))
  }

  /** However many wakes arrive while the loop is busy, its next `wait()` returns at
      once and the one after that parks; with no wake, the first one parks.  */
  lemma {:induction false} WakesCollapse(n: nat)
    ensures Wakes(Signal(false, false), n) == Signal(n > 0, false)
    ensures !Wait(Wakes(Signal(false, false), n)).parked <==> n > 0
    ensures Wait(Wait(Wakes(Signal(false, false), n))).parked
  {
    if n > 0 { WakesCollapse(n - 1); }
  }
}
