/** Failing statements: how many more run before one fails, `None` when none does. */
module Faults {
  import opened Options

  type Fault = Option<nat>

  predicate Fails(fault: Fault): (r: bool)
    ensures r ==> fault.Some?
  {
    fault == Some(0)
  }

  function Tick(fault: Fault): (r: Fault)
    ensures fault.None? <==> r.None?
  {
    if fault.Some? && fault.value > 0 then Some(fault.value - 1) else fault
  }
}
