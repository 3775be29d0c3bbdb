/**
 * How the Octo transformer lays out its input sequence: per observation
 * step, the state token and the image-patch tokens (the observation tokens),
 * then that step's readout tokens; the steps one after another. After the
 * encoder, the readout embeddings of a step are the last `nReadoutsPerStep`
 * tokens of its block.
 */
module TokenLayout {
  import opened CausalMask
  import PySlice
  import Arith

  /**
   * One state token per step plus one token per feature-map cell: never
   * zero, so the causal mask of this layout always has a positive block
   * length.
   */
  function ObsTokensPerStep(featHeight: nat, featWidth: nat): (n: nat)
    ensures n >= 1 && n > featHeight * featWidth
    ensures forall rd: nat :: BlockLen(n, rd) >= 1
  {
    featHeight * featWidth + 1
  }

  /** Position in the flattened sequence of slot `slot` of step `step`. */
  function TokenIndex(t: nat, rd: nat, step: nat, slot: nat): nat
  {
    step * BlockLen(t, rd) + slot
  }

  /**
   * Flattening is a bijection onto the positions of the mask, and the slot
   * kind agrees with the mask's notion of a readout column.
   */
  lemma TokenIndexLayout(t: nat, s: nat, rd: nat, step: nat, slot: nat)
    requires step < s && slot < BlockLen(t, rd)
    ensures TokenIndex(t, rd, step, slot) < SeqLen(t, s, rd)
    ensures StepOf(t, rd, TokenIndex(t, rd, step, slot)) == step
    ensures TokenIndex(t, rd, step, slot) % BlockLen(t, rd) == slot
    ensures IsReadout(t, rd, TokenIndex(t, rd, step, slot)) <==> slot >= t
  {
    var b := BlockLen(t, rd);
    Arith.DivModUnique(TokenIndex(t, rd, step, slot), b, step, slot);
    Arith.MulMono(step + 1, s, b);
    Arith.MulStep(step + 1, b);
  }

  /** The tokens of step `step`: the block `x[step * B .. (step + 1) * B]`. */
  function StepBlock<X>(x: seq<X>, t: nat, s: nat, rd: nat, step: nat): (blk: seq<X>)
    requires |x| == SeqLen(t, s, rd) && step < s
    ensures |blk| == BlockLen(t, rd)
    ensures forall slot :: 0 <= slot < |blk| ==>
      TokenIndex(t, rd, step, slot) < |x| && blk[slot] == x[TokenIndex(t, rd, step, slot)]
  {
    var b := BlockLen(t, rd);
    Arith.MulMono(step + 1, s, b);
    Arith.MulStep(step + 1, b);
    x[step * b .. step * b + b]
  }

  /** The encoder output regrouped by step, keeping the last `rd` tokens of each block. */
  function ReadoutEmbeds<X>(x: seq<X>, t: nat, s: nat, rd: nat): (e: seq<seq<X>>)
    requires |x| == SeqLen(t, s, rd)
    ensures |e| == s
    ensures forall step :: 0 <= step < s ==> |e[step]| == if rd == 0 then t else rd
  {
    seq(s, step requires 0 <= step < s => PySlice.SliceFrom(StepBlock(x, t, s, rd, step), -(rd as int)))
  }

  /**
   * With at least one readout per step, the embeddings kept for step k are
   * exactly that step's readout tokens, in order, and each of them sits in a
   * readout column of the causal mask.
   */
  lemma ReadoutEmbedsAreReadoutTokens<X>(x: seq<X>, t: nat, s: nat, rd: nat, step: nat, j: nat)
    requires |x| == SeqLen(t, s, rd)
    requires rd >= 1 && step < s && j < rd
    ensures |ReadoutEmbeds(x, t, s, rd)[step]| == rd
    ensures TokenIndex(t, rd, step, t + j) < |x|
    ensures ReadoutEmbeds(x, t, s, rd)[step][j] == x[TokenIndex(t, rd, step, t + j)]
    ensures IsReadout(t, rd, TokenIndex(t, rd, step, t + j))
    ensures StepOf(t, rd, TokenIndex(t, rd, step, t + j)) == step
  {
    var blk := StepBlock(x, t, s, rd, step);
    PySlice.SliceFromNegative(blk, rd);
    TokenIndexLayout(t, s, rd, step, t + j);
  }

  /**
   * With no readouts, `[-0:]` keeps the whole block, so the "readout
   * embeddings" are the observation tokens themselves.
   */
  lemma NoReadoutsKeepsWholeBlock<X>(x: seq<X>, t: nat, s: nat, step: nat)
    requires |x| == SeqLen(t, s, 0) && step < s
    ensures ReadoutEmbeds(x, t, s, 0)[step] == StepBlock(x, t, s, 0, step)
  {
    PySlice.SliceFromNegative(StepBlock(x, t, s, 0, step), 0);
  }

  /**
   * The token table in the source's documentation: a 6x6 feature map and one
   * state token give 37 observation tokens per step; with one readout and two
   * steps the sequence has 76 tokens and the readouts are tokens 37 and 75.
   * Tokens 0 to 37 belong to step 0 and tokens 38 to 75 to step 1.
   */
  lemma DocumentedTokenTable()
    ensures ObsTokensPerStep(6, 6) == 37
    ensures SeqLen(37, 2, 1) == 76
    ensures forall p :: 0 <= p < 76 ==> (IsReadout(37, 1, p) <==> p == 37 || p == 75)
    ensures forall p :: 0 <= p < 76 ==> StepOf(37, 1, p) == if p < 38 then 0 else 1
  {
    forall p | 0 <= p < 76
      ensures IsReadout(37, 1, p) <==> p == 37 || p == 75
      ensures StepOf(37, 1, p) == if p < 38 then 0 else 1
    {
      if p < 38 {
        Arith.DivModUnique(p, 38, 0, p);
      } else {
        Arith.DivModUnique(p, 38, 1, p - 38);
      }
    }
  }
}
