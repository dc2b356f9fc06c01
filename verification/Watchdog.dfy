/** The kernel watchdog: opening it arms it, and closing it disarms it only after a magic byte. */
module WatchdogDevice {

  const NANOS_PER_SECOND: int := 1_000_000_000

  class Watchdog {
    var present: bool
    var open: bool
    var armed: bool
    var magic: bool
    /** How often opening was tried, and how often the module was loaded. */
    var opens: nat
    var loads: nat
    /** How often something went wrong that stops the program. */
    var failures: nat

    constructor (present: bool)
      ensures this.present == present && Idle()
    {
      this.present := present;
      open, armed, magic := false, false, false;
      opens, loads, failures := 0, 0, 0;
    }

    /** Nobody holds the device and it is not counting. */
    predicate Idle()
      reads this
    {
      !open && !armed
    }

    /** The machine resets unless somebody keeps writing. */
    predicate Counting()
      reads this
    {
      open && armed && !magic
    }

    method Fails() returns (fails: bool)
      modifies this`failures
      ensures failures == old(failures) + if fails then 1 else 0
    {
      fails := *;
      if fails {
        failures := failures + 1;
      }
    }

    /** A device that is missing is no failure yet. */
    method Open() returns (ok: bool)
      requires Idle()
      modifies this
      ensures present == old(present) && (ok ==> present)
      ensures opens == old(opens) + 1 && loads == old(loads)
      ensures failures == old(failures) + if present && !ok then 1 else 0
      ensures if ok then Counting() else Idle()
    {
      opens := opens + 1;
      if !present {
        return false;
      }
      var fails := Fails();
      ok := !fails;
      if ok {
        open, armed, magic := true, true, false;
      }
    }

    method WriteMagic()
      requires open
      modifies this`magic
      ensures magic
    {
      magic := true;
    }

    method Close()
      requires open
      modifies this
      ensures present == old(present) && !open
      ensures opens == old(opens) && loads == old(loads) && failures == old(failures)
      ensures armed == (old(armed) && !old(magic))
    {
      open := false;
      if magic {
        armed := false;
      }
    }

    /** openWatchdog: the device is tried a second time only if it was missing and the module
        could be loaded. */
    method OpenWatchdog() returns (ok: bool)
      requires Idle()
      modifies this
      ensures if ok then Counting() else Idle()
      ensures opens - old(opens) == 1 + (loads - old(loads)) && old(loads) <= loads <= old(loads) + 1
      ensures loads > old(loads) ==> !old(present)
      ensures !old(present) ==> (present ==> loads > old(loads)) && (ok ==> opens == old(opens) + 2)
      ensures failures >= old(failures) && (ok <==> failures == old(failures))
    {
      ok := Open();
      if ok || present {
        return;
      }
      var fails := Fails();
      if fails {
        return;
      }
      loads := loads + 1;
      // The module may be loaded and still offer no device.
      var missing := Fails();
      present := !missing;
      ok := Open();
    }

    /** EnsureWatchdogAvailable leaves the watchdog as idle as it found it. */
    method EnsureAvailable() returns (ok: bool)
      requires Idle()
      modifies this
      ensures Idle() && opens > old(opens)
      ensures failures >= old(failures) && (ok <==> failures == old(failures))
    {
      ok := OpenWatchdog();
      if ok {
        WriteMagic();
        Close();
      }
    }

    /** ArmWatchdogPrePivot: armed exactly if it succeeds on a positive timeout. */
    method ArmPrePivot(timeout: int) returns (ok: bool, seconds: int)
      requires Idle()
      modifies this
      ensures if ok && timeout > 0 then Counting() else Idle()
      ensures if timeout > 0 then opens > old(opens) else opens == old(opens)
      ensures ok && timeout > 0 ==>
                && seconds >= 1
                && (seconds == 1 || seconds * 1_000_000_000 <= timeout) && timeout < (seconds + 1) * 1_000_000_000
      ensures failures >= old(failures) && (ok <==> failures == old(failures))
    {
      seconds := 0;
      if timeout <= 0 {
        return true, 0;
      }
      ok := OpenWatchdog();
      if !ok {
        return;
      }
      seconds := timeout / NANOS_PER_SECOND;
      if seconds < 1 {
        seconds := 1;
      }
      // Setting the timeout may fail; the driver then keeps its default.
      var fails := Fails();
      if fails {
        WriteMagic();
        Close();
        ok := false;
      }
    }

    /** The deferred disarm. */
    method Disarm()
      requires open
      modifies this
      ensures Idle() && failures == old(failures) && opens == old(opens) && loads == old(loads)
    {
      WriteMagic();
      Close();
    }
  }
}
