/**
 * Logical (Lamport) clocks: an unbounded counter held by reference that
 * may still be nil, in which case the clock reads as zero.  Every method
 * works on the counter in place; the reading ones first replace a nil
 * counter with a zero one, as the Go methods do.
 */
module Logical {
  import opened Wrappers
  import Numerals

  function Maximum(a: nat, b: nat): (m: nat)
    ensures m >= a && m >= b && (m == a || m == b)
  {
    if a < b then b else a
  }

  /** The three-way comparison of math/big's `Int.Cmp`: -1, 0 or +1. */
  function Compare(a: nat, b: nat): (r: int)
    ensures r == -1 <==> a < b
    ensures r == 0 <==> a == b
    ensures r == 1 <==> a > b
  {
    if a < b then -1 else if a == b then 0 else 1
  }

  class Clock {
    /** The counter; None stands for the nil counter of the zero-value clock. */
    var counter: Option<nat>

    /** The value the clock denotes: a nil counter reads as zero. */
    function Value(): nat
      reads this
    {
      match counter
      case None => 0
      case Some(n) => n
    }

    /** The zero value of the Go type, as `var clk Clock` or `new(Clock)` gives it. */
    constructor ()
      ensures counter == None && Value() == 0
    {
      counter := None;
    }

    /** The clock's value written in `base`; a nil counter becomes an explicit zero. */
    method Text(base: nat) returns (s: string)
      requires Numerals.ValidBase(base)
      modifies this
      ensures counter == Some(old(Value()))
      ensures s == Numerals.Text(Value(), base)
    {
      if counter.None? {
        counter := Some(0);
      }
      s := Numerals.Text(counter.value, base);
    }

    /** The clock's value in base 10. */
    method String() returns (s: string)
      modifies this
      ensures counter == Some(old(Value()))
      ensures s == Numerals.Text(Value(), 10)
    {
      if counter.None? {
        counter := Some(0);
      }
      s := Numerals.Text(counter.value, 10);
    }

    /** Adds one to the clock. */
    method Tick()
      modifies this
      ensures counter == Some(old(Value()) + 1)
    {
      if counter.None? {
        counter := Some(0);
      }
      counter := Some(counter.value + 1);
    }

    /**
     * Compares this clock with `other` by value, -1 when this one is smaller,
     * 0 when they are equal and +1 when this one is larger; both counters end
     * up non-nil and keep their values.
     */
    method Cmp(other: Clock) returns (r: int)
      modifies this, other
      ensures counter == Some(old(Value())) && other.counter == Some(old(other.Value()))
      ensures r == Compare(old(Value()), old(other.Value()))
    {
      if counter.None? {
        counter := Some(0);
      }
      if other.counter.None? {
        other.counter := Some(0);
      }
      r := Compare(counter.value, other.counter.value);
    }

    /**
     * Sets the clock to the natural number `value` denotes in `base`.  It
     * succeeds exactly when the text parses and is not negative; on failure
     * the clock keeps its counter.
     */
    method SetString(value: string, base: nat) returns (clk: Clock, ok: bool)
      requires Numerals.ValidBase(base)
      modifies this
      ensures clk == this
      ensures ok <==> Numerals.ParseInt(value, base).Some? && Numerals.ParseInt(value, base).value >= 0
      ensures ok ==> counter == Some(Numerals.ParseInt(value, base).value)
      ensures !ok ==> counter == old(counter)
    {
      var parsed := Numerals.ParseInt(value, base);
      if parsed.Some? && parsed.value >= 0 {
        counter := Some(parsed.value);
        return this, true;
      }
      return this, false;
    }

    /** Raises the clock to `other` when `other` is ahead, and returns it. */
    method Max(other: Clock) returns (clk: Clock)
      modifies this, other
      ensures clk == this
      ensures Value() == Maximum(old(Value()), old(other.Value()))
      ensures other.Value() == old(other.Value())
    {
      var c := Cmp(other);
      if c < 0 {
        counter := Some(other.counter.value);
      }
      clk := this;
    }

    /** The receive rule of logical clocks: max{clk, other} + 1. */
    method TickReceive(other: Clock)
      modifies this, other
      ensures Value() == Maximum(old(Value()), old(other.Value())) + 1
      ensures this != other ==> other.Value() == old(other.Value())
    {
      var clk := Max(other);
      clk.Tick();
    }
  }

  /** Writing a clock in a base and setting it back from that text succeeds and restores its value. */
  method TextThenSetString(clk: Clock, base: nat) returns (ok: bool)
    requires Numerals.ValidBase(base)
    modifies clk
    ensures ok && clk.Value() == old(clk.Value())
  {
    var s := clk.Text(base);
    Numerals.ParseText(clk.Value(), base);
    var _, succ := clk.SetString(s, base);
    ok := succ;
  }

  /** Ticking a zero-value clock, or one set from "0", gives "1". */
  method TickScenarios() returns (fromZeroValue: string, fromSetZero: string)
    ensures fromZeroValue == "1" && fromSetZero == "1"
  {
    var clk := new Clock();
    clk.Tick();
    fromZeroValue := clk.Text(10);
    var other := new Clock();
    var setClk, _ := other.SetString("0", 10);
    setClk.Tick();
    fromSetZero := setClk.Text(10);
  }

  /** "0" sets a clock to zero; "-1" is refused. */
  method SetStringScenarios() returns (zeroOk: bool, zeroText: string, negativeOk: bool)
    ensures zeroOk && zeroText == "0" && !negativeOk
  {
    var clk := new Clock();
    var setClk, ok := clk.SetString("0", 10);
    zeroOk := ok;
    zeroText := setClk.Text(10);
    var other := new Clock();
    Numerals.ParseNegativeText(1, 10);
    assert "-" + Numerals.Text(1, 10) == "-1";
    var _, negative := other.SetString("-1", 10);
    negativeOk := negative;
  }

  /** max{0, 0} + 1 = 1: receiving from a zero-value clock. */
  method TickReceiveZeroScenario() returns (text: string)
    ensures text == "1"
  {
    assert Numerals.Text(1, 10) == "1";
    var a := new Clock();
    var b := new Clock();
    a.TickReceive(b);
    text := a.Text(10);
  }

  /** max{0, 1} + 1 = 2: receiving a clock that is ahead. */
  method TickReceiveOneScenario() returns (text: string)
    ensures text == "2"
  {
    assert Numerals.ParseInt("1", 10) == Some(1);
    assert Numerals.Text(2, 10) == "2";
    var c := new Clock();
    var d := new Clock();
    var one, _ := d.SetString("1", 10);
    c.TickReceive(one);
    text := c.Text(10);
  }

  /** max{1, 0} + 1 = 2: receiving a zero-value clock when ahead. */
  method TickReceiveOtherNilScenario() returns (text: string)
    ensures text == "2"
  {
    assert Numerals.ParseInt("1", 10) == Some(1);
    assert Numerals.Text(2, 10) == "2";
    var e := new Clock();
    var f := new Clock();
    var setClk, _ := e.SetString("1", 10);
    setClk.TickReceive(f);
    text := setClk.Text(10);
  }

  /** A zero-value clock and one set from "0" compare equal, in either direction. */
  method CmpZeroScenarios() returns (unset: int, unsetToZero: int, zeroToUnset: int)
    ensures unset == 0 && unsetToZero == 0 && zeroToUnset == 0
  {
    var a := new Clock();
    var b := new Clock();
    unset := a.Cmp(b);
    var c := new Clock();
    var d := new Clock();
    var zero, _ := d.SetString("0", 10);
    unsetToZero := c.Cmp(zero);
    zeroToUnset := zero.Cmp(c);
  }
}
