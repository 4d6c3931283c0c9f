/**
 Abstract GPIO output state. A driver call `GPIOOn(p)` / `GPIOOff(p)` is a
 `PinWrite`; a routine's effect on the pins is the sequence of writes it
 issues, and `Apply` replays such a trace onto a pin-level map.
 */
module Gpio {

  /** A `gpio_t` pin number. */
  type Pin = nat

  datatype PinWrite = PinWrite(pin: Pin, high: bool)

  /** Levels of the pins that have been driven; an undriven pin reads low. */
  type Levels = map<Pin, bool>

  function Level(s: Levels, p: Pin): bool {
    p in s && s[p]
  }

  /** The state after issuing the writes of `w` in order, starting from `s`. */
  function Apply(s: Levels, w: seq<PinWrite>): Levels
    decreases |w|
  {
    if |w| == 0 then s else Apply(s[w[0].pin := w[0].high], w[1..])
  }

  /** Pins mentioned by a trace. */
  predicate Touches(w: seq<PinWrite>, p: Pin) {
    exists k :: 0 <= k < |w| && w[k].pin == p
  }

  /** A pin that no write in `w` names keeps its level. */
  lemma {:induction false} ApplyUntouched(s: Levels, w: seq<PinWrite>, p: Pin)
    requires !Touches(w, p)
    ensures Level(Apply(s, w), p) == Level(s, p)
    decreases |w|
  {
    if |w| > 0 {
      assert w[0].pin != p;
      assert !Touches(w[1..], p) by {
        forall k | 0 <= k < |w[1..]| ensures w[1..][k].pin != p {
          assert w[1..][k] == w[k + 1];
        }
      }
      ApplyUntouched(s[w[0].pin := w[0].high], w[1..], p);
    }
  }

  /** The last write to a pin decides its level. */
  lemma {:induction false} ApplyLastWrite(s: Levels, w: seq<PinWrite>, k: nat)
    requires k < |w|
    requires forall j :: k < j < |w| ==> w[j].pin != w[k].pin
    ensures Level(Apply(s, w), w[k].pin) == w[k].high
    decreases |w|
  {
    var s' := s[w[0].pin := w[0].high];
    if k == 0 {
      assert !Touches(w[1..], w[0].pin) by {
        forall j | 0 <= j < |w[1..]| ensures w[1..][j].pin != w[0].pin {
          assert w[1..][j] == w[j + 1];
        }
      }
      ApplyUntouched(s', w[1..], w[0].pin);
    } else {
      assert w[1..][k - 1] == w[k];
      forall j | k - 1 < j < |w[1..]| ensures w[1..][j].pin != w[1..][k - 1].pin {
        assert w[1..][j] == w[j + 1];
      }
      ApplyLastWrite(s', w[1..], k - 1);
    }
  }

  /** Replaying two traces one after the other is replaying their concatenation. */
  lemma {:induction false} ApplyConcat(s: Levels, a: seq<PinWrite>, b: seq<PinWrite>)
    ensures Apply(s, a + b) == Apply(Apply(s, a), b)
    decreases |a|
  {
    if |a| > 0 {
      assert (a + b)[0] == a[0];
      assert (a + b)[1..] == a[1..] + b;
      ApplyConcat(s[a[0].pin := a[0].high], a[1..], b);
    } else {
      assert a + b == b;
    }
  }
}
