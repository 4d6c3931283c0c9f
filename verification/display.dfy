/**
 `DisplayNumberOnLcd`: show a number on a multiplexed BCD display. For
 each digit position the routine drives the select lines (exactly the
 current one on) and then the four BCD data lines. Its effect is modelled
 as one `Frame` of pin writes per outer-loop iteration.
 */
module MuxDisplay {
  import opened Hw
  import opened Gpio
  import opened Bcd
  import opened Arith

  /** The pin writes of one outer-loop iteration: select lines, then BCD lines. */
  datatype Frame = Frame(select: seq<PinWrite>, data: seq<PinWrite>)

  function FrameWrites(f: Frame): seq<PinWrite> {
    f.select + f.data
  }

  /** The whole write trace of a run, frame after frame. */
  function Flatten(fs: seq<Frame>): seq<PinWrite> {
    if |fs| == 0 then [] else Flatten(fs[..|fs| - 1]) + FrameWrites(fs[|fs| - 1])
  }

  /** The select-line writes of iteration `i`: line `j` on exactly when `j == i`. */
  function SelectWrites(sel: seq<Pin>, n: nat, i: nat): (w: seq<PinWrite>)
    requires n <= |sel|
    ensures |w| == n
    ensures forall j :: 0 <= j < n ==> w[j].pin == sel[j]
    ensures forall j :: 0 <= j < n ==> (w[j].high <==> j == i)
  {
    seq(n, j requires 0 <= j < n => PinWrite(sel[j], j == i))
  }

  /**
   The wiring the display relies on: four distinct BCD pins, `digits`
   distinct select pins, and no pin in both groups.
   */
  predicate Wiring(bcdPins: seq<Pin>, selPins: seq<Pin>, digits: nat) {
    && |bcdPins| >= NBits && digits <= |selPins|
    && DistinctPins(bcdPins, NBits)
    && DistinctPins(selPins, digits)
    && (forall i, j :: 0 <= i < NBits && 0 <= j < digits ==> bcdPins[i] != selPins[j])
  }

  /**
   What the display shows while frame `i` is latched in state `s`: select
   line `i` is the only one on, and the BCD lines carry `d`.
   */
  predicate Shows(s: Levels, bcdPins: seq<Pin>, selPins: seq<Pin>, digits: nat, i: nat, d: nat)
    requires |bcdPins| >= NBits && digits <= |selPins|
  {
    && (forall j :: 0 <= j < digits ==> (Level(s, selPins[j]) <==> j == i))
    && BcdRead(s, bcdPins) == d
  }

  /**
   The frames of one scan of `data`: frame `i` selects line `i` and puts the
   `i`-th decimal digit of `data` (most significant first) on the BCD lines.
   */
  predicate ScanOf(frames: seq<Frame>, data: nat, digits: nat, bcdPins: seq<Pin>, selPins: seq<Pin>)
    requires |bcdPins| >= NBits && digits <= |selPins|
  {
    && |frames| == digits
    && forall i :: 0 <= i < digits ==>
         frames[i] == Frame(SelectWrites(selPins, digits, i), BcdToGpio(LowDigits(data, digits)[i] as u8, bcdPins))
  }

  /** The inner loop of `DisplayNumberOnLcd`: for each select line `j`, on if `j == i`, else off. */
  method DriveSelect(selPins: seq<Pin>, digits: nat, i: nat) returns (select: seq<PinWrite>)
    requires digits <= |selPins|
    ensures |select| == digits
    ensures forall j :: 0 <= j < digits ==> select[j].pin == selPins[j]
    ensures forall j :: 0 <= j < digits ==> (select[j].high <==> j == i)
    ensures select == SelectWrites(selPins, digits, i)
  {
    select := [];
    var j := 0;
    while j < digits
      invariant 0 <= j <= digits
      invariant |select| == j
      invariant forall m :: 0 <= m < j ==> select[m] == PinWrite(selPins[m], m == i)
    {
      if j == i {
        select := select + [PinWrite(selPins[j], true)];
      } else {
        select := select + [PinWrite(selPins[j], false)];
      }
      j := j + 1;
    }
  }

  /**
   `DisplayNumberOnLcd(data, digits, bcd_gpio, sel_gpio)`, returning the
   frames it writes. `digits <= 9` for the conversion it calls.
   */
  method DisplayNumberOnLcd(data: u32, digits: u8, bcdPins: seq<Pin>, selPins: seq<Pin>)
    returns (frames: seq<Frame>)
    requires digits <= 9
    requires |bcdPins| >= NBits && |selPins| >= digits
    ensures data >= Pow10(digits) ==> frames == []
    ensures data < Pow10(digits) ==> ScanOf(frames, data, digits, bcdPins, selPins)
  {
    var scratch := seq(digits, _ => 0);
    var status, bcdArray := ConvertToBcdArray(data, digits, scratch);
    if status != 0 {
      return [];
    }
    assert bcdArray[..digits] == bcdArray;
    frames := [];
    var i := 0;
    while i < digits
      invariant 0 <= i <= digits
      invariant |frames| == i
      invariant forall k :: 0 <= k < i ==>
        frames[k] == Frame(SelectWrites(selPins, digits, k), BcdToGpio(bcdArray[k], bcdPins))
    {
      var select := DriveSelect(selPins, digits, i);
      frames := frames + [Frame(select, BcdToGpio(bcdArray[i], bcdPins))];
      i := i + 1;
    }
  }

  /** After the select writes of iteration `i`, line `i` is on and every other line is off. */
  lemma SelectOneHot(s: Levels, selPins: seq<Pin>, digits: nat, i: nat, j: nat)
    requires digits <= |selPins| && DistinctPins(selPins, digits)
    requires j < digits
    ensures Level(Apply(s, SelectWrites(selPins, digits, i)), selPins[j]) <==> j == i
  {
    ApplyLastWrite(s, SelectWrites(selPins, digits, i), j);
  }

  /** Whatever the pins held before, after one frame the display shows that frame's digit. */
  lemma FrameShows(s: Levels, bcdPins: seq<Pin>, selPins: seq<Pin>, digits: nat, i: nat, d: u8)
    requires Wiring(bcdPins, selPins, digits)
    requires d <= 9
    ensures Shows(Apply(s, FrameWrites(Frame(SelectWrites(selPins, digits, i), BcdToGpio(d, bcdPins)))),
                  bcdPins, selPins, digits, i, d)
  {
    var sw, bw := SelectWrites(selPins, digits, i), BcdToGpio(d, bcdPins);
    var mid := Apply(s, sw);
    ApplyConcat(s, sw, bw);
    forall j | 0 <= j < digits
      ensures Level(Apply(mid, bw), selPins[j]) <==> j == i
    {
      SelectOneHot(s, selPins, digits, i, j);
      BcdToGpioFrame(mid, d, bcdPins, selPins[j]);
    }
    BcdToGpioRoundTrip(mid, d, bcdPins);
  }

  lemma {:induction false} FlattenPrefix(fs: seq<Frame>, i: nat)
    requires i < |fs|
    ensures Flatten(fs[..i + 1]) == Flatten(fs[..i]) + FrameWrites(fs[i])
  {
    assert fs[..i + 1][..i] == fs[..i];
  }

  /**
   While the display is scanned, the `i`-th frame leaves select line `i`
   alone on and the BCD lines carrying the `i`-th decimal digit of `data`,
   most significant first.
   */
  lemma DisplayScansDigits(s: Levels, data: u32, digits: u8, bcdPins: seq<Pin>, selPins: seq<Pin>,
                           frames: seq<Frame>, i: nat)
    requires digits <= 9 && Wiring(bcdPins, selPins, digits)
    requires data < Pow10(digits) && ScanOf(frames, data, digits, bcdPins, selPins)
    requires i < digits
    ensures Shows(Apply(s, Flatten(frames[..i + 1])), bcdPins, selPins, digits, i, LowDigits(data, digits)[i])
  {
    FlattenPrefix(frames, i);
    ApplyConcat(s, Flatten(frames[..i]), FrameWrites(frames[i]));
    FrameShows(Apply(s, Flatten(frames[..i])), bcdPins, selPins, digits, i, LowDigits(data, digits)[i] as u8);
  }

  /** The digits read off the BCD lines, one per frame of the trace. */
  function ShownDigits(s: Levels, bcdPins: seq<Pin>, frames: seq<Frame>, digits: nat): (ds: seq<nat>)
    requires |bcdPins| >= NBits && digits <= |frames|
    ensures |ds| == digits
  {
    seq(digits, i requires 0 <= i < digits => BcdRead(Apply(s, Flatten(frames[..i + 1])), bcdPins))
  }

  /** Frame by frame, the BCD lines carry the decimal digits of `data`, most significant first. */
  lemma ShownAreDigits(s: Levels, data: u32, digits: u8, bcdPins: seq<Pin>, selPins: seq<Pin>,
                       frames: seq<Frame>)
    requires digits <= 9 && Wiring(bcdPins, selPins, digits)
    requires data < Pow10(digits) && ScanOf(frames, data, digits, bcdPins, selPins)
    ensures ShownDigits(s, bcdPins, frames, digits) == LowDigits(data, digits)
  {
    var shown := ShownDigits(s, bcdPins, frames, digits);
    forall i | 0 <= i < digits ensures shown[i] == LowDigits(data, digits)[i] {
      DisplayScansDigits(s, data, digits, bcdPins, selPins, frames, i);
    }
  }

  /**
   Round trip: the digits an observer reads off the BCD lines, frame by
   frame, denote `data` again.
   */
  lemma DisplayRoundTrip(s: Levels, data: u32, digits: u8, bcdPins: seq<Pin>, selPins: seq<Pin>,
                         frames: seq<Frame>)
    requires digits <= 9 && Wiring(bcdPins, selPins, digits)
    requires data < Pow10(digits) && ScanOf(frames, data, digits, bcdPins, selPins)
    ensures Value(ShownDigits(s, bcdPins, frames, digits)) == data
  {
    ShownAreDigits(s, data, digits, bcdPins, selPins, frames);
    LowDigitsValue(data, digits);
    ModSmall(data, Pow10(digits));
  }

  /** The example wired in the firmware: 682 on three digits shows 6, 8, 2; it does not fit two. */
  lemma ExampleDigits()
    ensures LowDigits(682, 3) == [6, 8, 2]
    ensures 682 >= Pow10(2)
  {
    assert Pow10(2) == 100;
  }
}
