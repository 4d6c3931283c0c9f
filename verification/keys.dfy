/**
 The polled key task of firmware/projects/guia2_ej1 (`TeclasTask`): every
 50 ms the switch mask is read, and a key toggles its flag only on a
 rising edge, pressed now and not pressed at the previous poll.
 */
module KeyPolling {
  import opened Hw
  import DistanceMeter

  /** `tecla1_anterior` and `tecla2_anterior`, both false when the task starts. */
  datatype KeyMemory = KeyMemory(prev1: bool, prev2: bool)

  const InitialMemory := KeyMemory(false, false)

  /** One loop iteration of `TeclasTask` on the switch mask `mask`. */
  function Poll(m: Mode, k: KeyMemory, mask: Mask): (r: (Mode, KeyMemory))
    ensures r.1 == KeyMemory(Pressed(mask, Switch1), Pressed(mask, Switch2))
    ensures r.0.measuring != m.measuring <==> Pressed(mask, Switch1) && !k.prev1
    ensures r.0.hold != m.hold <==> Pressed(mask, Switch2) && !k.prev2
  {
    var sw1 := Pressed(mask, Switch1);
    var m1 := if sw1 && !k.prev1 then DistanceMeter.ToggleMeasuring(m) else m;
    var sw2 := Pressed(mask, Switch2);
    var m2 := if sw2 && !k.prev2 then DistanceMeter.ToggleHold(m1) else m1;
    (m2, KeyMemory(sw1, sw2))
  }

  /** Polling a sequence of masks in order. */
  function Run(m: Mode, k: KeyMemory, masks: seq<Mask>): (r: (Mode, KeyMemory))
    decreases |masks|
  {
    if |masks| == 0 then (m, k)
    else
      var (m', k') := Poll(m, k, masks[0]);
      Run(m', k', masks[1..])
  }

  /** Number of polls in `masks` at which `flag` goes from released to pressed. */
  function RisingEdges(prev: bool, masks: seq<Mask>, flag: Mask): nat
    decreases |masks|
  {
    if |masks| == 0 then 0
    else
      var now := Pressed(masks[0], flag);
      (if now && !prev then 1 else 0) + RisingEdges(now, masks[1..], flag)
  }

  /**
   Over any run of polls, each flag has been flipped once per rising edge
   of its own key, and the remembered key states are the last mask's.
   */
  lemma {:induction false} RunCountsRisingEdges(m: Mode, k: KeyMemory, masks: seq<Mask>)
    ensures Run(m, k, masks).0.measuring == (m.measuring != (RisingEdges(k.prev1, masks, Switch1) % 2 == 1))
    ensures Run(m, k, masks).0.hold == (m.hold != (RisingEdges(k.prev2, masks, Switch2) % 2 == 1))
    ensures |masks| > 0 ==>
              Run(m, k, masks).1 == KeyMemory(Pressed(masks[|masks| - 1], Switch1), Pressed(masks[|masks| - 1], Switch2))
    decreases |masks|
  {
    if |masks| > 0 {
      var (m', k') := Poll(m, k, masks[0]);
      assert Run(m, k, masks) == Run(m', k', masks[1..]);
      RunCountsRisingEdges(m', k', masks[1..]);
      var e1, e2 := Pressed(masks[0], Switch1) && !k.prev1, Pressed(masks[0], Switch2) && !k.prev2;
      ParityStep(e1, RisingEdges(k'.prev1, masks[1..], Switch1));
      ParityStep(e2, RisingEdges(k'.prev2, masks[1..], Switch2));
      if |masks| > 1 {
        assert masks[1..][|masks[1..]| - 1] == masks[|masks| - 1];
      }
    }
  }

  /** One more edge, or none, flips the parity of a count, or keeps it. */
  lemma ParityStep(edge: bool, rest: nat)
    ensures ((if edge then 1 else 0) + rest) % 2 == 1 <==> (edge != (rest % 2 == 1))
  {
  }

  /** A key held down across consecutive polls flips its flag only at the first of them. */
  lemma HeldKeyTogglesOnce(m: Mode, k: KeyMemory, n: nat)
    requires !k.prev1 && n >= 1
    ensures Run(m, k, seq(n, _ => Switch1)).0.measuring == !m.measuring
    ensures Run(m, k, seq(n, _ => Switch1)).0.hold == m.hold
  {
    var masks := seq(n, _ => Switch1);
    RunCountsRisingEdges(m, k, masks);
    HeldEdges(k.prev1, masks, Switch1);
    ReleasedNoEdges(k.prev2, masks, Switch2);
  }

  /** The same for switch 2: held across consecutive polls, it flips `hold_lcd` once. */
  lemma HeldHoldKeyTogglesOnce(m: Mode, k: KeyMemory, n: nat)
    requires !k.prev2 && n >= 1
    ensures Run(m, k, seq(n, _ => Switch2)).0.hold == !m.hold
    ensures Run(m, k, seq(n, _ => Switch2)).0.measuring == m.measuring
  {
    var masks := seq(n, _ => Switch2);
    RunCountsRisingEdges(m, k, masks);
    HeldEdges(k.prev2, masks, Switch2);
    ReleasedNoEdges(k.prev1, masks, Switch1);
  }

  /**
   From start-up (measuring, no hold, both keys remembered released),
   holding switch 1 for any number of polls pauses the measurement once
   and leaves the display free.
   */
  lemma StartUpPressPauses(n: nat)
    requires n >= 1
    ensures Run(InitialMode, InitialMemory, seq(n, _ => Switch1)).0 == Mode(false, false)
  {
    HeldKeyTogglesOnce(InitialMode, InitialMemory, n);
  }

  /** A key pressed at every poll of a non-empty run has one rising edge, or none if it was already down. */
  lemma {:induction false} HeldEdges(prev: bool, masks: seq<Mask>, flag: Mask)
    requires |masks| >= 1
    requires forall i :: 0 <= i < |masks| ==> Pressed(masks[i], flag)
    ensures RisingEdges(prev, masks, flag) == if prev then 0 else 1
    decreases |masks|
  {
    assert Pressed(masks[0], flag);
    if |masks| > 1 {
      assert forall i :: 0 <= i < |masks[1..]| ==> masks[1..][i] == masks[i + 1];
      HeldEdges(true, masks[1..], flag);
    } else {
      assert masks[1..] == [];
    }
  }

  /** A key pressed at no poll of a run has no rising edge. */
  lemma {:induction false} ReleasedNoEdges(prev: bool, masks: seq<Mask>, flag: Mask)
    requires forall i :: 0 <= i < |masks| ==> !Pressed(masks[i], flag)
    ensures RisingEdges(prev, masks, flag) == 0
    decreases |masks|
  {
    if |masks| > 0 {
      assert !Pressed(masks[0], flag);
      assert forall i :: 0 <= i < |masks[1..]| ==> masks[1..][i] == masks[i + 1];
      ReleasedNoEdges(false, masks[1..], flag);
    }
  }
}
