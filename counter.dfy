/**
 * The counter program of anchor/programs/devotion/src/lib.rs: one account
 * holding a u8 `count`, with instructions that create it, step it up or
 * down with checked arithmetic, overwrite it, and close the account.
 */
module Counter {
  import opened RustInt

  datatype Error =
    | AccountNotInitialized   // the account was closed
    | Panic                   // `checked_add(1)` / `checked_sub(1)` returned None and `unwrap` panicked

  datatype Outcome = Ok | Err(error: Error)

  class DevotionCounter {
    /** Whether the account exists; `close` removes it. */
    var open: bool
    var count: u8

    /** `initialize`: a new zero-filled account, so the count starts at 0. */
    constructor ()
      ensures open && count == 0
    {
      open := true;
      count := 0;
    }

    /** `increment`: one more, unless the count is already 255, where the instruction aborts. */
    method Increment() returns (r: Outcome)
      modifies this
      ensures open == old(open)
      ensures r == if !old(open) then Err(AccountNotInitialized)
                   else if old(count) == U8_MAX then Err(Panic)
                   else Ok
      ensures count == if r.Ok? then old(count) + 1 else old(count)
    {
      if !open {
        return Err(AccountNotInitialized);
      }
      if count == U8_MAX {
        return Err(Panic);
      }
      count := count + 1;
      r := Ok;
    }

    /** `decrement`: one less, unless the count is already 0, where the instruction aborts. */
    method Decrement() returns (r: Outcome)
      modifies this
      ensures open == old(open)
      ensures r == if !old(open) then Err(AccountNotInitialized)
                   else if old(count) == 0 then Err(Panic)
                   else Ok
      ensures count == if r.Ok? then old(count) - 1 else old(count)
    {
      if !open {
        return Err(AccountNotInitialized);
      }
      if count == 0 {
        return Err(Panic);
      }
      count := count - 1;
      r := Ok;
    }

    /** `set(value)`: the count becomes `value`; nothing else changes. */
    method Set(value: u8) returns (r: Outcome)
      modifies this
      ensures open == old(open)
      ensures r == if old(open) then Ok else Err(AccountNotInitialized)
      ensures count == if r.Ok? then value else old(count)
    {
      if !open {
        return Err(AccountNotInitialized);
      }
      count := value;
      r := Ok;
    }

    /** `close`: the account is removed; the count is not written. */
    method Close() returns (r: Outcome)
      modifies this
      ensures r == if old(open) then Ok else Err(AccountNotInitialized)
      ensures !open && count == old(count)
    {
      if !open {
        return Err(AccountNotInitialized);
      }
      open := false;
      r := Ok;
    }
  }

  /**
   * The session the program's test runs: initialize, increment twice,
   * decrement, set 42, close. Returns the count after each of the first
   * five steps and whether the account still exists at the end.
   */
  method CounterScenario() returns (seen: seq<int>, stillOpen: bool)
    ensures seen == [0, 1, 2, 1, 42]
    ensures !stillOpen
  {
    var c := new DevotionCounter();
    seen := [c.count];
    var r := c.Increment();
    seen := seen + [c.count];
    r := c.Increment();
    seen := seen + [c.count];
    r := c.Decrement();
    seen := seen + [c.count];
    r := c.Set(42);
    seen := seen + [c.count];
    r := c.Close();
    stillOpen := c.open;
  }
}
