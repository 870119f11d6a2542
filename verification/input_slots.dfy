/** The input-slot semaphore of the container IO manager
    (`InputSlots` in modal/_runtime/container_io_manager.py).

    The asyncio object is modelled as an immutable state plus pure step
    functions.  Awaiting on the single waiter future is represented by the
    `waiter` flag: `Acquire` either grants a slot at once or parks the caller,
    and a parked caller is granted its slot by a later `Release` or `SetValue`
    that finds a free slot (`WakeWaiter`). */
module InputSlots {
  import opened Errors

  /** `active` counts granted slots, `value` is the concurrency target,
      `waiter` records a parked acquirer, `closed` is set by `close()`.
      `active` is an `int` because `release()` does not guard against
      releasing more slots than were granted. */
  datatype Slots = Slots(active: int, value: int, waiter: bool, closed: bool)

  function Init(value: int): Slots
  {
    Slots(0, value, false, false)
  }

  /** The reachable-state invariant: nobody stays parked while a slot is free
      (no lost wake-up). */
  predicate NoLostWakeup(s: Slots)
  {
    s.waiter ==> s.active >= s.value
  }

  /** Outcome of a successful `acquire()` call. */
  datatype Acquired = Granted(after: Slots) | Parked(after: Slots)

  /** `acquire()`: take a free slot, or park as the single waiter, or fail
      with RuntimeError when a waiter is already parked. */
  function Acquire(s: Slots): (r: Result<Acquired>)
    ensures r.Ok? && r.value.Granted? <==> s.active < s.value
    ensures r.Err? <==> s.active >= s.value && s.waiter
    ensures r.Err? ==> r.error == RuntimeError
    ensures r.Ok? && r.value.Granted? ==>
      r.value.after.active == s.active + 1 <= r.value.after.value == s.value
      && r.value.after.waiter == s.waiter && r.value.after.closed == s.closed
    ensures r.Ok? && r.value.Parked? ==>
      !s.waiter && r.value.after.waiter && r.value.after.active == s.active
      && r.value.after.value == s.value && r.value.after.closed == s.closed
    ensures r.Ok? ==> NoLostWakeup(s) ==> NoLostWakeup(r.value.after)
  {
    if s.active < s.value then Ok(Granted(s.(active := s.active + 1)))
    else if !s.waiter then Ok(Parked(s.(waiter := true)))
    else Err(RuntimeError)
  }

  /** `_wake_waiter()`: hand a free slot to the parked waiter, if any. */
  function WakeWaiter(s: Slots): (r: Slots)
    ensures r.value == s.value && r.closed == s.closed
    ensures r.active > s.active <==> s.active < s.value && s.waiter
    ensures r.active > s.active ==> r.active == s.active + 1 <= r.value && !r.waiter
    ensures r.active <= s.active ==> r == s
    ensures NoLostWakeup(r)
  {
    if s.active < s.value && s.waiter then s.(waiter := false, active := s.active + 1)
    else s
  }

  /** `release()`: give a slot back and wake the waiter if a slot is now free. */
  function Release(s: Slots): (r: Slots)
    ensures r.value == s.value && r.closed == s.closed
    ensures r.waiter ==> s.waiter
    ensures s.waiter && !r.waiter ==> r.active == s.active
    ensures !(s.waiter && !r.waiter) ==> r.active == s.active - 1
    ensures NoLostWakeup(r)
  {
    WakeWaiter(s.(active := s.active - 1))
  }

  /** `set_value()`: change the target; ignored once the slots are closed.
      Lowering the target never takes back granted slots. */
  function SetValue(s: Slots, value: int): (r: Slots)
    ensures s.closed ==> r == s
    ensures !s.closed ==> r.value == value
    ensures r.closed == s.closed && r.active >= s.active
    ensures r.active > s.active ==> r.active == s.active + 1 <= value && s.waiter && !r.waiter
    ensures NoLostWakeup(s) ==> NoLostWakeup(r)
  {
    if s.closed then s else WakeWaiter(s.(value := value))
  }

  /** `close()`: mark the slots closed, then acquire `value` slots one by one.
      With a waiter already parked, the first acquire that finds no free
      slot raises RuntimeError; that happens exactly when the loop runs
      (`value >= 1`) and a slot was already held.  Whenever the closing task is parked, only a release by one of the
      input holders can resume it, so the loop performs those releases; the
      count of them is returned next to the final state.  Ending the loop
      means every input has wrapped up and the closer holds every slot. */
  method Close(s: Slots) returns (r: Result<Slots>, released: nat)
    ensures r.Err? ==> s.waiter && r.error == RuntimeError
    ensures !s.waiter ==> r.Ok?
    ensures r.Err? <==> s.waiter && s.value >= 1 && s.active >= 1
    ensures r.Ok? ==> r.value.closed && r.value.value == s.value && r.value.waiter == s.waiter
    ensures r.Ok? && s.value >= 1 && s.active >= 0 ==>
      r.value.active == s.value && released == s.active
  {
    var st := s.(closed := true);
    var held := 0;
    released := 0;
    while held < s.value
      invariant 0 <= held && (s.value >= 0 ==> held <= s.value)
      invariant st.value == s.value && st.closed
      invariant st.waiter == s.waiter
      invariant s.waiter ==> released == 0
      invariant held > 0 ==> st.active <= s.value
      invariant st.active == s.active - released + held
      invariant s.active >= 0 ==> st.active >= held
      decreases s.value - held
    {
      var step := Acquire(st);
      if step.Err? {
        assert held < s.value && st.active >= s.value;
        return Err(step.error), released;
      }
      match step.value {
        case Granted(next) =>
          st := next;
        case Parked(next) =>
          st := next;
          while st.waiter
            invariant st.value == s.value && st.closed
            invariant st.waiter ==> st.active >= s.value
            invariant !st.waiter ==> st.active == s.value
            invariant st.active == s.active - released + held + (if st.waiter then 0 else 1)
            decreases st.active, st.waiter
          {
            st := Release(st);
            released := released + 1;
          }
      }
      held := held + 1;
    }
    r := Ok(st);
  }
}
