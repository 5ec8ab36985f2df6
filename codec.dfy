/**
 * The bit-plane (LSB) codec: hiding the k most significant bits of a payload
 * image in the k least significant bits of a carrier image, and recovering
 * them.  Both operations are element-wise over the sample array, so each is
 * a function on one sample lifted to whole images.
 */
module Steganography {
  import opened BitOps
  import opened Images

  /** The number of bits per sample the two tabs of the application let the user choose. */
  type Depth = k: nat | 1 <= k <= 8 witness 1

  /**
   * `256 - 2**bits`: AND with it clears a sample's low k bits and keeps the
   * others, and it is the bitwise complement of LowMask(k) within a byte.
   */
  function CarrierMask(k: Depth): (m: nat)
    ensures m + LowMask(k) == 255
    ensures forall a: Sample :: And(a, m) == Shr(a, k) * Pow2(k)
  {
    Pow2Monotone(k, 8);
    Pow2Eight();
    CarrierMaskClears(k);
    256 - Pow2(k)
  }

  lemma CarrierMaskClears(k: Depth)
    ensures forall a: Sample :: And(a, Pow2(8) - Pow2(k)) == Shr(a, k) * Pow2(k)
  {
    forall a: Sample
      ensures And(a, Pow2(8) - Pow2(k)) == Shr(a, k) * Pow2(k)
    {
      Pow2Eight();
      AndHighMask(a, 8, k);
    }
  }

  /** `2**bits - 1`: AND with it keeps exactly the low k bits. */
  function LowMask(k: Depth): (m: nat)
    ensures m < Pow2(k)
    ensures forall a: nat :: And(a, m) == Low(a, k)
  {
    LowMaskKeeps(k);
    Pow2(k) - 1
  }

  lemma LowMaskKeeps(k: Depth)
    ensures forall a: nat :: And(a, Pow2(k) - 1) == Low(a, k)
  {
    forall a: nat
      ensures And(a, Pow2(k) - 1) == Low(a, k)
    {
      AndLowMask(a, k);
    }
  }

  // ---------------------------------------------------------------------
  // One sample.

  /**
   * `(c & (256 - 2**k)) | ((p >> (8 - k)) & (2**k - 1))`: the carrier's high
   * 8-k bits followed by the payload's high k bits.
   */
  function EmbedSample(c: Sample, p: Sample, k: Depth): (r: Sample)
    ensures r == (c / Pow2(k)) * Pow2(k) + p / Pow2(8 - k)
  {
    EmbedArithmetic(c, p, k);
    ShrLowAreDivMod(c, k);
    ShrLowAreDivMod(p, 8 - k);
    Or(And(c, CarrierMask(k)), And(Shr(p, 8 - k), LowMask(k)))
  }

  /** The masks and shifts of EmbedSample compute the carrier's high part plus the payload's top bits. */
  lemma EmbedArithmetic(c: Sample, p: Sample, k: Depth)
    ensures Or(And(c, CarrierMask(k)), And(Shr(p, 8 - k), LowMask(k)))
         == Shr(c, k) * Pow2(k) + Shr(p, 8 - k)
    ensures Shr(p, 8 - k) < Pow2(k)
    ensures Shr(c, k) * Pow2(k) + Shr(p, 8 - k) < 256
  {
    var pk, pr := Pow2(k), Pow2(8 - k);
    var h, t := Shr(c, k), Shr(p, 8 - k);
    ClearedCarrier(c, k);
    ShiftedPayload(p, k);
    OrDisjoint(h, t, k);
    MulBelow(h, pr, pk);
  }

  /** `c & (256 - 2**k)` is c with its low k bits zeroed; the part left is below 2^(8-k). */
  lemma ClearedCarrier(c: Sample, k: Depth)
    ensures Pow2(8 - k) * Pow2(k) == 256
    ensures And(c, CarrierMask(k)) == Shr(c, k) * Pow2(k)
    ensures Shr(c, k) < Pow2(8 - k)
  {
    Pow2Eight();
    Pow2Add(8 - k, k);
    AndHighMask(c, 8, k);
    ShrBelow(c, 8, k);
  }

  /** `(p >> (8 - k)) & (2**k - 1)` is the payload's top k bits, a value below 2^k. */
  lemma ShiftedPayload(p: Sample, k: Depth)
    ensures And(Shr(p, 8 - k), LowMask(k)) == Shr(p, 8 - k)
    ensures Shr(p, 8 - k) < Pow2(k)
  {
    Pow2Eight();
    ShrBelow(p, 8, 8 - k);
    AndLowMask(Shr(p, 8 - k), k);
    SmallSplit(Shr(p, 8 - k), k);
  }

  /** `(s & (2**k - 1)) << (8 - k)` on uint8: the low k bits of s moved to the top. */
  function ExtractSample(s: Sample, k: Depth): (r: Sample)
    ensures r == (s % Pow2(k)) * Pow2(8 - k)
  {
    ExtractArithmetic(s, k);
    ShrLowAreDivMod(s, k);
    Shl8(And(s, LowMask(k)), 8 - k)
  }

  /** The mask keeps the low k bits of s, and the shift by 8-k does not overflow the byte. */
  lemma ExtractArithmetic(s: Sample, k: Depth)
    ensures Shl8(And(s, LowMask(k)), 8 - k) == Low(s, k) * Pow2(8 - k)
    ensures Low(s, k) * Pow2(8 - k) < 256
  {
    var pk, pr := Pow2(k), Pow2(8 - k);
    Pow2Eight();
    Pow2Add(k, 8 - k);
    AndLowMask(s, k);
    MulBelow(Low(s, k), pk, pr);
  }

  // ---------------------------------------------------------------------
  // Per-sample properties.

  /**
   * A stego sample's high 8-k bits are the carrier's, and its low k bits are
   * the payload's high k bits, right-aligned.
   */
  lemma EmbedBitPlanes(c: Sample, p: Sample, k: Depth)
    ensures EmbedSample(c, p, k) / Pow2(k) == c / Pow2(k)
    ensures EmbedSample(c, p, k) % Pow2(k) == p / Pow2(8 - k)
  {
    EmbedArithmetic(c, p, k);
    ShrLowAreDivMod(c, k);
    ShrLowAreDivMod(p, 8 - k);
    DivModUnique(EmbedSample(c, p, k), Pow2(k), c / Pow2(k), p / Pow2(8 - k));
  }

  /** Embedding moves a carrier sample by at most 2^k - 1. */
  lemma EmbedDistortion(c: Sample, p: Sample, k: Depth)
    ensures -(Pow2(k) - 1) <= EmbedSample(c, p, k) - c <= Pow2(k) - 1
  {
    EmbedBitPlanes(c, p, k);
    var r, pk := EmbedSample(c, p, k), Pow2(k);
    DivModDecompose(r, pk);
    DivModDecompose(c, pk);
  }

  /** At depth 8 the carrier mask is 0 and the stego sample is the payload sample. */
  lemma EmbedFullDepth(c: Sample, p: Sample)
    ensures CarrierMask(8) == 0 && LowMask(8) == 255
    ensures EmbedSample(c, p, 8) == p
  {
    Pow2Eight();
    DivModUnique(c, 256, 0, c);
  }

  /** An extracted sample has its low 8-k bits zero. */
  lemma ExtractZeroesLowBits(s: Sample, k: Depth)
    ensures ExtractSample(s, k) % Pow2(8 - k) == 0
  {
    DivModUnique(ExtractSample(s, k), Pow2(8 - k), s % Pow2(k), 0);
  }

  /** At depth 8 extraction is the identity. */
  lemma ExtractFullDepth(s: Sample)
    ensures ExtractSample(s, 8) == s
  {
    Pow2Eight();
    DivModUnique(s, 256, 0, s);
  }

  /**
   * Round trip: extracting what was embedded gives the payload sample with its
   * low 8-k bits cleared, whatever the carrier; the loss is below 2^(8-k).
   */
  lemma RoundTripSample(c: Sample, p: Sample, k: Depth)
    ensures ExtractSample(EmbedSample(c, p, k), k) == (p / Pow2(8 - k)) * Pow2(8 - k)
    ensures 0 <= p - ExtractSample(EmbedSample(c, p, k), k) < Pow2(8 - k)
  {
    EmbedBitPlanes(c, p, k);
    var pr := Pow2(8 - k);
    DivModDecompose(p, pr);
  }

  /** At depth 8 the round trip recovers the payload sample exactly. */
  lemma RoundTripSampleFullDepth(c: Sample, p: Sample)
    ensures ExtractSample(EmbedSample(c, p, 8), 8) == p
  {
    EmbedFullDepth(c, p);
    ExtractFullDepth(p);
  }

  /** Carrier 200, payload 100, depth 4: the stego sample is 198 and 96 is recovered. */
  lemma WorkedExample()
    ensures EmbedSample(200, 100, 4) == 198
    ensures ExtractSample(198, 4) == 96
  {
    assert Pow2(4) == 16;
  }

  /**
   * The distortion bound 2^k - 1 grows with k, but the distortion itself need
   * not: carrier 2 with payload 128 moves by 1 at depth 1 and by 0 at depth 2.
   */
  lemma DistortionNotMonotoneInDepth()
    ensures EmbedSample(2, 128, 1) == 3 && EmbedSample(2, 128, 2) == 2
  {
    assert Pow2(1) == 2 && Pow2(2) == 4 && Pow2(6) == 64 && Pow2(7) == 128;
  }

  // ---------------------------------------------------------------------
  // Whole images.

  /** `ocultar_imagen`: EmbedSample applied to every pair of corresponding samples. */
  function Embed(carrier: Image, payload: Image, k: Depth): (r: Image)
    requires SameShape(carrier, payload)
    ensures SameShape(r, carrier)
    ensures forall i, j, ch :: 0 <= i < |r| && 0 <= j < |r[i]| && 0 <= ch < |r[i][j]| ==>
              r[i][j][ch] == EmbedSample(carrier[i][j][ch], payload[i][j][ch], k)
  {
    seq(|carrier|, i requires 0 <= i < |carrier| =>
      seq(|carrier[i]|, j requires 0 <= j < |carrier[i]| =>
        seq(|carrier[i][j]|, ch requires 0 <= ch < |carrier[i][j]| =>
          EmbedSample(carrier[i][j][ch], payload[i][j][ch], k))))
  }

  /** The bit arithmetic of `extraer_imagen`: ExtractSample applied to every sample. */
  function Extract(stego: Image, k: Depth): (r: Image)
    ensures SameShape(r, stego)
    ensures forall i, j, ch :: 0 <= i < |r| && 0 <= j < |r[i]| && 0 <= ch < |r[i][j]| ==>
              r[i][j][ch] == ExtractSample(stego[i][j][ch], k)
  {
    seq(|stego|, i requires 0 <= i < |stego| =>
      seq(|stego[i]|, j requires 0 <= j < |stego[i]| =>
        seq(|stego[i][j]|, ch requires 0 <= ch < |stego[i][j]| =>
          ExtractSample(stego[i][j][ch], k))))
  }

  /** The stego image has the carrier's shape and keeps every carrier sample's high 8-k bits. */
  lemma EmbedKeepsCarrier(carrier: Image, payload: Image, k: Depth, s: Shape)
    requires HasShape(carrier, s) && HasShape(payload, s)
    ensures SameShape(carrier, payload)
    ensures HasShape(Embed(carrier, payload, k), s)
    ensures forall i, j, ch :: 0 <= i < s.height && 0 <= j < s.width && 0 <= ch < s.channels ==>
              Embed(carrier, payload, k)[i][j][ch] / Pow2(k) == carrier[i][j][ch] / Pow2(k)
              && Embed(carrier, payload, k)[i][j][ch] % Pow2(k) == payload[i][j][ch] / Pow2(8 - k)
  {
    SameShapeOfShape(carrier, payload, s);
    var r := Embed(carrier, payload, k);
    ShapeOfSameShape(carrier, r, s);
    forall i, j, ch | 0 <= i < s.height && 0 <= j < s.width && 0 <= ch < s.channels
      ensures r[i][j][ch] / Pow2(k) == carrier[i][j][ch] / Pow2(k)
      ensures r[i][j][ch] % Pow2(k) == payload[i][j][ch] / Pow2(8 - k)
    {
      EmbedBitPlanes(carrier[i][j][ch], payload[i][j][ch], k);
    }
  }

  /** Every stego sample is within 2^k - 1 of the carrier sample. */
  lemma EmbedImageDistortion(carrier: Image, payload: Image, k: Depth)
    requires SameShape(carrier, payload)
    ensures forall i, j, ch :: 0 <= i < |carrier| && 0 <= j < |carrier[i]| && 0 <= ch < |carrier[i][j]| ==>
              -(Pow2(k) - 1) <= Embed(carrier, payload, k)[i][j][ch] - carrier[i][j][ch] <= Pow2(k) - 1
  {
    var r := Embed(carrier, payload, k);
    forall i, j, ch | 0 <= i < |carrier| && 0 <= j < |carrier[i]| && 0 <= ch < |carrier[i][j]|
      ensures -(Pow2(k) - 1) <= r[i][j][ch] - carrier[i][j][ch] <= Pow2(k) - 1
    {
      EmbedDistortion(carrier[i][j][ch], payload[i][j][ch], k);
    }
  }

  /** At depth 8 the carrier is fully overwritten: the stego image is the payload. */
  lemma EmbedImageFullDepth(carrier: Image, payload: Image)
    requires SameShape(carrier, payload)
    ensures Embed(carrier, payload, 8) == payload
  {
    var r := Embed(carrier, payload, 8);
    forall i, j, ch | 0 <= i < |r| && 0 <= j < |r[i]| && 0 <= ch < |r[i][j]|
      ensures r[i][j][ch] == payload[i][j][ch]
    {
      EmbedFullDepth(carrier[i][j][ch], payload[i][j][ch]);
    }
    SamplewiseEqual(r, payload);
  }

  /** Every extracted sample has its low 8-k bits zero; at depth 8 extraction is the identity. */
  lemma ExtractImageTruncates(stego: Image, k: Depth)
    ensures forall i, j, ch :: 0 <= i < |stego| && 0 <= j < |stego[i]| && 0 <= ch < |stego[i][j]| ==>
              Extract(stego, k)[i][j][ch] % Pow2(8 - k) == 0
    ensures k == 8 ==> Extract(stego, k) == stego
  {
    var r := Extract(stego, k);
    forall i, j, ch | 0 <= i < |stego| && 0 <= j < |stego[i]| && 0 <= ch < |stego[i][j]|
      ensures r[i][j][ch] % Pow2(8 - k) == 0
      ensures k == 8 ==> r[i][j][ch] == stego[i][j][ch]
    {
      ExtractZeroesLowBits(stego[i][j][ch], k);
      if k == 8 {
        ExtractFullDepth(stego[i][j][ch]);
      }
    }
    if k == 8 {
      SamplewiseEqual(r, stego);
    }
  }

  /**
   * Image round trip: the extracted image has the payload's shape and holds the
   * payload's high k bits in every sample, independently of the carrier.
   */
  lemma RoundTrip(carrier: Image, payload: Image, k: Depth)
    requires SameShape(carrier, payload)
    ensures SameShape(Extract(Embed(carrier, payload, k), k), payload)
    ensures forall i, j, ch :: 0 <= i < |payload| && 0 <= j < |payload[i]| && 0 <= ch < |payload[i][j]| ==>
              Extract(Embed(carrier, payload, k), k)[i][j][ch] == (payload[i][j][ch] / Pow2(8 - k)) * Pow2(8 - k)
  {
    var r := Extract(Embed(carrier, payload, k), k);
    forall i, j, ch | 0 <= i < |payload| && 0 <= j < |payload[i]| && 0 <= ch < |payload[i][j]|
      ensures r[i][j][ch] == (payload[i][j][ch] / Pow2(8 - k)) * Pow2(8 - k)
    {
      RoundTripSample(carrier[i][j][ch], payload[i][j][ch], k);
    }
  }

  /** Round trip at depth 8 is exact: the payload image is recovered unchanged. */
  lemma RoundTripFullDepth(carrier: Image, payload: Image)
    requires SameShape(carrier, payload)
    ensures Extract(Embed(carrier, payload, 8), 8) == payload
  {
    EmbedImageFullDepth(carrier, payload);
    ExtractImageTruncates(payload, 8);
  }
}
