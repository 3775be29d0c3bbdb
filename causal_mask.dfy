/**
 * The block-wise causal attention mask of the Octo transformer
 * (`make_causal_mask`). The flattened token sequence is made of `nObsSteps`
 * blocks; each block holds `nObsTokensPerStep` observation tokens followed by
 * `nReadoutsPerStep` readout tokens. An entry of the mask is either `Allow`
 * (the additive bias 0) or `Block` (the additive bias -inf).
 */
module CausalMask {
  import opened Wrappers
  import Arith

  datatype Entry = Allow | Block

  datatype MaskError =
    /** `range` with a step of zero: both token counts per step are zero. */
    | ZeroStepRange

  /** Number of tokens per observation step: observations, then readouts. */
  function BlockLen(nObsTokensPerStep: nat, nReadoutsPerStep: nat): nat
  {
    nObsTokensPerStep + nReadoutsPerStep
  }

  /** Side of the square mask: the length of the flattened token sequence. */
  function SeqLen(nObsTokensPerStep: nat, nObsSteps: nat, nReadoutsPerStep: nat): nat
  {
    BlockLen(nObsTokensPerStep, nReadoutsPerStep) * nObsSteps
  }

  /** Token (or column) `c` is a readout: it is among the last `nReadoutsPerStep` of its block. */
  predicate IsReadout(nObsTokensPerStep: nat, nReadoutsPerStep: nat, c: nat)
  {
    var b := BlockLen(nObsTokensPerStep, nReadoutsPerStep);
    b > 0 && c % b >= nObsTokensPerStep
  }

  /** The observation step a token belongs to. */
  function StepOf(nObsTokensPerStep: nat, nReadoutsPerStep: nat, c: nat): nat
    requires BlockLen(nObsTokensPerStep, nReadoutsPerStep) > 0
  {
    c / BlockLen(nObsTokensPerStep, nReadoutsPerStep)
  }

  /** The causal triangle the source starts from: nothing above the diagonal. */
  function Triangle(r: nat, c: nat): Entry
  {
    if c > r then Block else Allow
  }

  /**
   * The entry (r, c) of the finished mask, following the construction: the
   * causal triangle, whose readout columns are then blocked except for the
   * diagonal cell.
   */
  function MaskEntry(nObsTokensPerStep: nat, nReadoutsPerStep: nat, r: nat, c: nat): Entry
  {
    if IsReadout(nObsTokensPerStep, nReadoutsPerStep, c) then
      (if r == c then Allow else Block)
    else
      Triangle(r, c)
  }

  /** A readout column c = T + k*B + j with j < R lies inside the block of step k. */
  lemma ReadoutColumnOfBlock(t: nat, rd: nat, k: nat, j: nat)
    requires j < rd
    ensures IsReadout(t, rd, t + k * (t + rd) + j)
    ensures (t + k * (t + rd) + j) / (t + rd) == k
  {
    var b := t + rd;
    assert t + k * b + j == k * b + (t + j);
    assert 0 <= t + j < b;
    Arith.DivModUnique(t + k * b + j, b, k, t + j);
  }

  /** The observation columns between two readout groups are not readouts. */
  lemma ObservationColumnOfBlock(t: nat, rd: nat, k: nat, j: nat)
    requires j < t
    ensures !IsReadout(t, rd, k * (t + rd) + j)
  {
    var b := t + rd;
    Arith.DivModUnique(k * b + j, b, k, j);
  }

  /** Block k ends inside the sequence when its readout group starts inside it. */
  lemma BlockInside(t: nat, s: nat, rd: nat, k: nat)
    requires t + k * (t + rd) < SeqLen(t, s, rd)
    ensures t + k * (t + rd) + rd <= SeqLen(t, s, rd)
    ensures k < s
  {
    var b := t + rd;
    if k >= s {
      Arith.MulMono(s, k, b);
    }
    Arith.MulMono(k + 1, s, b);
    Arith.MulStep(k + 1, b);
  }

  /** `mask[:, c] = -inf` then `mask[c, c] = 0`: column c is blocked except on the diagonal. */
  method IsolateColumn(mask: array2<Entry>, c: nat)
    requires mask.Length0 == mask.Length1 && c < mask.Length0
    modifies mask
    ensures forall row, col :: 0 <= row < mask.Length0 && 0 <= col < mask.Length1 ==>
      mask[row, col] == if col == c then (if row == c then Allow else Block) else old(mask[row, col])
  {
    forall row | 0 <= row < mask.Length0 {
      mask[row, c] := Block;
    }
    mask[c, c] := Allow;
  }

  /**
   * The mask while the column walk is at column i: the readout columns
   * before i are blocked except on the diagonal, the rest is still the
   * causal triangle.
   */
  ghost predicate ReadoutsIsolatedBefore(mask: array2<Entry>, t: nat, rd: nat, i: nat)
    reads mask
  {
    forall row, col :: 0 <= row < mask.Length0 && 0 <= col < mask.Length1 ==>
      mask[row, col] == (if IsReadout(t, rd, col) && col < i then (if row == col then Allow else Block)
                         else Triangle(row, col))
  }

  /**
   * One pass of the outer loop of `make_causal_mask`: isolate the readout
   * columns of step k, which start at column i; the observation columns
   * after them, up to the next step's readouts, stay as they were.
   */
  method IsolateReadoutsOfBlock(mask: array2<Entry>, t: nat, ghost s: nat, rd: nat, ghost k: nat, i: nat)
    requires mask.Length0 == SeqLen(t, s, rd) && mask.Length1 == SeqLen(t, s, rd)
    requires i == t + k * (t + rd) && i < SeqLen(t, s, rd)
    requires ReadoutsIsolatedBefore(mask, t, rd, i)
    modifies mask
    ensures ReadoutsIsolatedBefore(mask, t, rd, i + t + rd)
  {
    BlockInside(t, s, rd, k);
    var j := 0;
    while j < rd
      invariant 0 <= j <= rd
      invariant ReadoutsIsolatedBefore(mask, t, rd, i + j)
    {
      ReadoutColumnOfBlock(t, rd, k, j);
      var c := i + j;
      assert IsReadout(t, rd, c);
      IsolateColumn(mask, c);
      j := j + 1;
    }
    var b := t + rd;
    Arith.MulStep(k + 1, b);
    assert i + rd == (k + 1) * b;
    forall row, col | 0 <= row < mask.Length0 && 0 <= col < mask.Length1
      ensures mask[row, col] == (if IsReadout(t, rd, col) && col < i + b then (if row == col then Allow else Block)
                                 else Triangle(row, col))
    {
      if i + rd <= col < i + b {
        ObservationColumnOfBlock(t, rd, k + 1, col - (k + 1) * b);
      }
    }
  }

  /**
   * `make_causal_mask`: allocate the causal triangle, then walk the readout
   * columns block by block, blocking the whole column and re-allowing its
   * diagonal cell.
   */
  method MakeCausalMask(nObsTokensPerStep: nat, nObsSteps: nat, nReadoutsPerStep: nat)
    returns (r: Result<array2<Entry>, MaskError>)
    ensures r.Failure? <==> nObsTokensPerStep + nReadoutsPerStep == 0
    ensures r.Success? ==> fresh(r.value)
    ensures r.Success? ==>
      var n := SeqLen(nObsTokensPerStep, nObsSteps, nReadoutsPerStep);
      r.value.Length0 == n && r.value.Length1 == n
    ensures r.Success? ==>
      forall row, col :: 0 <= row < r.value.Length0 && 0 <= col < r.value.Length1 ==>
        r.value[row, col] == MaskEntry(nObsTokensPerStep, nReadoutsPerStep, row, col)
  {
    var t, rd := nObsTokensPerStep, nReadoutsPerStep;
    var b := t + rd;
    var n := b * nObsSteps;
    if b == 0 {
      // The column walk steps by zero tokens, which `range` refuses.
      return Failure(ZeroStepRange);
    }
    var mask := new Entry[n, n]((row: nat, col: nat) => Triangle(row, col));
    // The first readout column is column t: the columns before it are observations.
    forall row, col | 0 <= row < n && 0 <= col < n
      ensures mask[row, col] == (if IsReadout(t, rd, col) && col < t then (if row == col then Allow else Block)
                                 else Triangle(row, col))
    {
      if col < t {
        ObservationColumnOfBlock(t, rd, 0, col);
      }
    }
    var i := t;
    ghost var k := 0;
    while i < n
      invariant i == t + k * b
      invariant ReadoutsIsolatedBefore(mask, t, rd, i)
      decreases n - i
    {
      IsolateReadoutsOfBlock(mask, t, nObsSteps, rd, k, i);
      Arith.MulStep(k + 1, b);
      i := i + b;
      k := k + 1;
    }
    return Success(mask);
  }

  /**
   * The finished mask in closed form: a token attends to itself, and to an
   * earlier token exactly when that token is an observation. In particular
   * nothing above the diagonal is allowed, and a readout column is blocked
   * everywhere but on its diagonal cell.
   */
  lemma MaskAllowedIff(t: nat, rd: nat, r: nat, c: nat)
    ensures MaskEntry(t, rd, r, c) == Allow <==> c == r || (c < r && !IsReadout(t, rd, c))
    ensures c > r ==> MaskEntry(t, rd, r, c) == Block
    ensures IsReadout(t, rd, c) ==> (MaskEntry(t, rd, r, c) == Allow <==> r == c)
    ensures MaskEntry(t, rd, r, r) == Allow
  {
  }

  /** No token attends to a token of a later observation step. */
  lemma NoAttentionToLaterSteps(t: nat, rd: nat, r: nat, c: nat)
    requires BlockLen(t, rd) > 0
    requires MaskEntry(t, rd, r, c) == Allow
    ensures StepOf(t, rd, c) <= StepOf(t, rd, r)
  {
    Arith.DivMono(c, r, BlockLen(t, rd));
  }

  /** Observation tokens never attend to readout tokens, not even those of their own step. */
  lemma ObservationsIgnoreReadouts(t: nat, rd: nat, r: nat, c: nat)
    requires !IsReadout(t, rd, r) && IsReadout(t, rd, c)
    ensures MaskEntry(t, rd, r, c) == Block
  {
  }

  /** A readout token attends to no other readout token, of its own step or any other. */
  lemma ReadoutsIsolated(t: nat, rd: nat, r: nat, c: nat)
    requires IsReadout(t, rd, r) && IsReadout(t, rd, c) && r != c
    ensures MaskEntry(t, rd, r, c) == Block
  {
  }

  /**
   * A readout token attends to an observation token exactly when that
   * observation belongs to the readout's own step or an earlier one.
   */
  lemma ReadoutSeesObservationsUpToItsStep(t: nat, rd: nat, r: nat, c: nat)
    requires IsReadout(t, rd, r) && !IsReadout(t, rd, c)
    ensures MaskEntry(t, rd, r, c) == Allow <==> StepOf(t, rd, c) <= StepOf(t, rd, r)
  {
    var b := BlockLen(t, rd);
    var qc, qr := c / b, r / b;
    if qc < qr {
      Arith.MulMono(qc + 1, qr, b);
      Arith.MulStep(qc + 1, b);
      assert c < r;
    } else if qc == qr {
      assert c % b < t <= r % b;
      assert c < r;
    } else if c < r {
      Arith.DivMono(c, r, b);
      assert false;
    }
  }

  /**
   * The example drawn in the source's documentation: two steps of two
   * observation tokens and one readout token each (tokens 2 and 5 are the
   * readouts).
   */
  function DocumentedExample(): seq<seq<Entry>>
  {
    var A, B := Allow, Block;
    [ [A, B, B, B, B, B],
      [A, A, B, B, B, B],
      [A, A, A, B, B, B],
      [A, A, B, A, B, B],
      [A, A, B, A, A, B],
      [A, A, B, A, A, A] ]
  }

  lemma DocumentedExampleMatches()
    ensures forall r, c :: 0 <= r < 6 && 0 <= c < 6 ==> MaskEntry(2, 1, r, c) == DocumentedExample()[r][c]
  {
    forall r, c | 0 <= r < 6 && 0 <= c < 6
      ensures MaskEntry(2, 1, r, c) == DocumentedExample()[r][c]
    {
      assert IsReadout(2, 1, c) <==> c == 2 || c == 5;
    }
  }
}
