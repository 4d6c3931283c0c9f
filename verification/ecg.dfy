/**
 ECG waveform playback (`GenerarSeñalECG`): on every tick of the 4 ms timer
 the sample under the cursor `indice_ecg` is written to the DAC and the
 cursor advances modulo `BUFFER_SIZE`.
 */
module EcgPlayback {
  import opened Hw
  import opened Arith

  /** `BUFFER_SIZE`, the declared length of the `ecg` array. */
  const BufferSize := 231

  // The brace-enclosed initializer of `ecg`, one constant per source line.
  const EcgRow1: seq<u8> :=
    [17, 17, 17, 17, 17, 17, 17, 17, 17, 17, 17, 18, 18, 18, 17, 17, 17, 17, 17, 17, 17, 18,
     18, 18, 18, 18, 18, 18, 17, 17, 16, 16, 16, 16, 17, 17, 18, 18, 18, 17, 17, 17, 17]
  const EcgRow2: seq<u8> :=
    [18, 18, 19, 21, 22, 24, 25, 26, 27, 28, 29, 31, 32, 33, 34, 34, 35, 37, 38, 37, 34, 29,
     24, 19, 15, 14, 15, 16, 17, 17, 17, 16, 15, 14, 13, 13, 13, 13, 13, 13, 13, 12, 12]
  const EcgRow3: seq<u8> :=
    [10, 6, 2, 3, 15, 43, 88, 145, 199, 237, 252, 242, 211, 167, 117, 70, 35, 16, 14, 22, 32, 38,
     37, 32, 27, 24, 24, 26, 27, 28, 28, 27, 28, 28, 30, 31, 31, 31, 32, 33, 34, 36]
  const EcgRow4: seq<u8> :=
    [38, 39, 40, 41, 42, 43, 45, 47, 49, 51, 53, 55, 57, 60, 62, 65, 68, 71, 75, 79, 83, 87,
     92, 97, 101, 106, 111, 116, 121, 125, 129, 133, 136, 138, 139, 140, 140, 139, 137]
  const EcgRow5: seq<u8> :=
    [133, 129, 123, 117, 109, 101, 92, 84, 77, 70, 64, 58, 52, 47, 42, 39, 36, 34, 31, 30, 28, 27,
     26, 25, 25, 25, 25, 25, 25, 25, 25, 24, 24, 24, 24, 25, 25, 25, 25, 25, 25, 25]
  const EcgRow6: seq<u8> :=
    [24, 24, 24, 24, 24, 24, 24, 24, 23, 23, 22, 22, 21, 21, 21, 20, 20, 20, 20, 20, 19, 19,
     18, 18, 18, 19, 19, 19, 19, 18, 17, 17, 18, 18, 18, 18, 18, 18, 18, 18, 17, 17, 17, 17]
  const EcgRow7: seq<u8> :=
    [17, 17, 17]

  /** The whole initializer, exactly as listed: 256 values. */
  const EcgInitializer: seq<u8> :=
    EcgRow1 + EcgRow2 + EcgRow3 + EcgRow4
    + EcgRow5 + EcgRow6 + EcgRow7

  /**
   The contents of `unsigned char ecg[BUFFER_SIZE]` as GCC builds it. ISO C
   makes initializers beyond the 231 entries a constraint violation that
   requires a diagnostic (C11 6.7.9 paragraph 2); GCC warns and keeps the
   first 231 values.
   */
  const Ecg: seq<u8> := EcgInitializer[..BufferSize]

  /** A playable table: at least one sample. */
  type Table = t: seq<u8> | |t| > 0 witness [0]

  /** What one call does: the value written to the DAC and the cursor afterwards. */
  datatype Step = Step(dac: u8, next: nat)

  /** One call of `GenerarSeñalECG` on `table` with cursor `cursor`. */
  function Generate(table: Table, cursor: nat): (r: Step)
    requires cursor < |table|
    ensures r.dac == table[cursor]
    ensures r.next < |table|
    ensures r.next == 0 <==> cursor == |table| - 1
    ensures cursor < |table| - 1 ==> r.next == cursor + 1
  {
    Step(table[cursor], (cursor + 1) % |table|)
  }

  /** The cursor after `n` ticks starting from `cursor`. */
  function CursorAfter(table: Table, cursor: nat, n: nat): (c: nat)
    requires cursor < |table|
    ensures c < |table|
    decreases n
  {
    if n == 0 then cursor else CursorAfter(table, Generate(table, cursor).next, n - 1)
  }

  /** The DAC values written by `n` ticks starting from `cursor`, in order. */
  function Emitted(table: Table, cursor: nat, n: nat): (out: seq<u8>)
    requires cursor < |table|
    ensures |out| == n
    decreases n
  {
    if n == 0 then [] else [Generate(table, cursor).dac] + Emitted(table, Generate(table, cursor).next, n - 1)
  }

  /** After `n` ticks the cursor has moved `n` places around the table. */
  lemma {:induction false} CursorAfterSteps(table: Table, cursor: nat, n: nat)
    requires cursor < |table|
    ensures CursorAfter(table, cursor, n) == (cursor + n) % |table|
    decreases n
  {
    if n == 0 {
      ModSmall(cursor, |table|);
    } else {
      var next := Generate(table, cursor).next;
      CursorAfterSteps(table, next, n - 1);
      ModShift(cursor + 1, n - 1, |table|);
    }
  }

  /** After exactly one table length of ticks the cursor is back where it started. */
  lemma FullCycleReturns(table: Table, cursor: nat)
    requires cursor < |table|
    ensures CursorAfter(table, cursor, |table|) == cursor
  {
    CursorAfterSteps(table, cursor, |table|);
    DivModUnique(cursor + |table|, |table|, 1, cursor);
  }

  /** The `k`-th value written is the table entry `k` places after the starting cursor. */
  lemma {:induction false} EmittedValues(table: Table, cursor: nat, n: nat, k: nat)
    requires cursor < |table| && k < n
    ensures Emitted(table, cursor, n)[k] == table[(cursor + k) % |table|]
    decreases k
  {
    ModSmall(cursor, |table|);
    if k > 0 {
      var next := Generate(table, cursor).next;
      EmittedValues(table, next, n - 1, k - 1);
      ModShift(cursor + 1, k - 1, |table|);
    }
  }

  /** From the reset cursor 0, the `k`-th value written is `table[k mod |table|]`. */
  lemma EmittedFromReset(table: Table, n: nat, k: nat)
    requires k < n
    ensures Emitted(table, 0, n)[k] == table[k % |table|]
  {
    EmittedValues(table, 0, n, k);
  }

  /** One full cycle from reset plays the whole table once, in order. */
  lemma OneCyclePlaysTable(table: Table)
    ensures Emitted(table, 0, |table|) == table
  {
    forall k | 0 <= k < |table| ensures Emitted(table, 0, |table|)[k] == table[k] {
      EmittedFromReset(table, |table|, k);
      ModSmall(k, |table|);
    }
  }

  /**
   `n` timer ticks driving `GenerarSeñalECG`, starting from the global
   `indice_ecg` at `start`: the DAC values written and the final cursor.
   */
  method Play(table: Table, start: nat, n: nat) returns (dac: seq<u8>, cursor: nat)
    requires start < |table|
    ensures |dac| == n
    ensures forall k :: 0 <= k < n ==> dac[k] == table[(start + k) % |table|]
    ensures cursor == (start + n) % |table|
  {
    dac := [];
    cursor := start;
    var i := 0;
    while i < n
      invariant 0 <= i <= n
      invariant |dac| == i
      invariant cursor == (start + i) % |table|
      invariant forall k :: 0 <= k < i ==> dac[k] == table[(start + k) % |table|]
    {
      var step := Generate(table, cursor);
      dac := dac + [step.dac];
      ModSmall(cursor, |table|);
      ModStep(start + i, |table|);
      cursor := step.next;
      i := i + 1;
    }
  }

  /** The firmware table: 231 entries, and the last index wraps to 0, never to 231. */
  lemma EcgTableShape()
    ensures |Ecg| == BufferSize
    ensures Generate(Ecg, 230).next == 0
    ensures forall c :: 0 <= c < 230 ==> Generate(Ecg, c).next == c + 1
  {
  }

  /**
   As GCC compiles it, the waveform repeats every 231 ticks, so initializer value
   231 is never played: tick 231 writes `EcgInitializer[0]` (17) where the
   listed waveform continues with `EcgInitializer[231]` (18).
   */
  lemma TruncatedTableSkipsTail()
    ensures |EcgInitializer| == 256 && |EcgInitializer| > BufferSize
    ensures Emitted(Ecg, 0, 232)[231] == EcgInitializer[0] == 17
    ensures EcgInitializer[231] == 18
  {
    InitializerFacts();
    EmittedFromReset(Ecg, 232, 231);
  }

  lemma InitializerFacts()
    ensures |EcgInitializer| == 256 && |Ecg| == 231
    ensures 231 % |Ecg| == 0
    ensures Ecg[0] == EcgInitializer[0] == 17
    ensures EcgInitializer[231] == 18
  {
    assert EcgInitializer[0] == EcgRow1[0] == 17;
  }

  /**
   With the array sized to its initializer (256 entries), every listed
   sample is played once per cycle, in order, and the cycle closes.
   */
  lemma FullTablePlaysEverySample(n: nat, k: nat)
    requires k < n
    ensures Emitted(EcgInitializer, 0, n)[k] == EcgInitializer[k % 256]
    ensures Emitted(EcgInitializer, 0, 256) == EcgInitializer
    ensures CursorAfter(EcgInitializer, 0, 256) == 0
  {
    InitializerFacts();
    EmittedFromReset(EcgInitializer, n, k);
    OneCyclePlaysTable(EcgInitializer);
    FullCycleReturns(EcgInitializer, 0);
  }
}
