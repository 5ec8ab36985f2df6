# Bit-plane image steganography: a Dafny model

This project models the core of a small image-steganography application
(`src/esteganografia.py`, a Streamlit app). A secret image (the payload) is
hidden in a cover image (the carrier). The carrier keeps its `8-k` high bits
per 8-bit sample. Its `k` low bits are replaced by the payload's `k` high bits
(`ocultar_imagen`). Extraction moves the stego image's `k` low bits back to the
top of each sample and leaves the rest zero (`extraer_imagen`). Before hiding,
the app crops both images to their common height and width. A quality label
(Excellent, Good, Fair, Poor) is chosen from the bit depth, or from the PSNR
when no depth is given (`mostrar_metricas`).

Files and modules:

- `bitops.dfy`, module `BitOps`: `2**n`, bitwise AND and OR on non-negative
  integers computed bit by bit, logical right shift, and the uint8 left shift
  that wraps modulo 256. Lemmas relate the masks to division and remainder by
  powers of two.
- `images.dfy`, module `Images`: a sample is an integer in [0, 255] (numpy
  `uint8`). An image is `seq<seq<seq<Sample>>>`, indexed `img[row][column][channel]`
  as the ndarray is. There are shape predicates (`HasShape`, `SameShape`,
  `Rectangular`) and `shape[0..2]` read-outs.
- `codec.dfy`, module `Steganography`: the per-sample embed and extract
  expressions written with the same masks, shifts, AND and OR as the source.
  Each carries an arithmetic postcondition, and each is lifted element-wise to
  whole images. Lemmas cover bit-plane preservation, the distortion bound,
  the round trip and the depth-8 extremes.
- `alignment.dfy`, module `Alignment`: the slice `img[:h, :w]`, the crop to
  the common size, and the hiding tab's crop-then-embed pipeline.
- `quality.dfy`, module `Quality`: the label rule, with PSNR as a finite real,
  +infinity or NaN.

Inputs are parameters. The bit depth `k` is the type `Depth` (1..8), which is
the range of both sliders (`src/esteganografia.py:137`, `:195`). Equal shapes
for embedding are a precondition. In the app the crop provides them.

Behaviour of the code that a reader might not expect, and that the model keeps:

- `ocultar_imagen` and `extraer_imagen` validate neither the shapes of their
  arrays nor the depth; only the sliders and the crop keep their inputs in
  range. Equal shapes and a depth in 1..8 are therefore preconditions here,
  not error results.
- The PSNR thresholds are strict (`psnr > 40`, `> 30`, `> 20`), so each
  boundary value falls in the lower tier: 40 is Good, 30 is Fair and 20 is
  Poor (`Quality.Boundaries`).
- The bit-depth rule is `>= 6`, `>= 4`, `>= 2`, else Poor, so every depth below
  2, 0 and negative values included, is Poor.
- The per-sample distortion is not monotone in k; only its bound `2^k - 1` is
  (`Steganography.EmbedDistortion`). Carrier 2 with payload 128 moves by 1 at
  k = 1 and by 0 at k = 2 (`Steganography.DistortionNotMonotoneInDepth`).

## Model

| member | source | states |
|---|---|---|
| `BitOps.Pow2` | src/esteganografia.py:74-76 | `2**bits` is a positive integer |
| `BitOps.And` | src/esteganografia.py:79 | bitwise AND is bounded by both operands |
| `BitOps.Or` | src/esteganografia.py:85 | bitwise OR is at least each operand and at most their sum |
| `BitOps.Shl8` | src/esteganografia.py:103 | a uint8 left shift stays below 256 and equals `a * 2^n` when that does not overflow |
| `BitOps.Shr` | src/esteganografia.py:82 | the logical right shift never increases its operand |
| `BitOps.ShrLowAreDivMod` | src/esteganografia.py:82 | `a >> n` is `a / 2^n`, and the low n bits it drops form `a % 2^n` |
| `BitOps.AndLowMask` | src/esteganografia.py:76 | AND with `2^k - 1` keeps exactly the low k bits of its operand |
| `BitOps.AndHighMask` | src/esteganografia.py:74-79 | for `a < 2^n`, AND with `2^n - 2^k` clears exactly the low k bits: the result is `(a >> k) * 2^k` |
| `BitOps.OrDisjoint` | src/esteganografia.py:85 | OR of a multiple of `2^k` with a value below `2^k` is their sum |
| `Steganography.CarrierMask` | src/esteganografia.py:74 | `256 - 2**bits` is the byte complement of the low mask, and AND with it turns every sample a into `(a >> k) * 2^k` |
| `Steganography.LowMask` | src/esteganografia.py:76 | `2**bits - 1` is below `2^k`, and AND with it keeps exactly the low k bits of any value |
| `Steganography.ClearedCarrier` | src/esteganografia.py:74-79 | `c & (256 - 2^k)` is `(c >> k) * 2^k`, c with its low k bits zeroed, and `c >> k` is below `2^(8-k)` |
| `Steganography.ShiftedPayload` | src/esteganografia.py:76-82 | `p >> (8-k)` is below `2^k`, so the mask `2^k - 1` leaves it unchanged |
| `Steganography.EmbedArithmetic` | src/esteganografia.py:74-85 | the OR of the two masked parts is `(c >> k) * 2^k + (p >> (8-k))` and stays below 256 |
| `Steganography.EmbedSample` | src/esteganografia.py:74-85 | the embedded sample is the carrier's high `8-k` bits above the payload's high k bits, and is a uint8 |
| `Steganography.ExtractArithmetic` | src/esteganografia.py:97-103 | `(s & (2^k - 1)) << (8-k)` is the low k bits of s times `2^(8-k)`; the uint8 shift never overflows |
| `Steganography.ExtractSample` | src/esteganografia.py:97-103 | the extracted sample is the stego sample's low k bits moved to the top |
| `Steganography.EmbedBitPlanes` | src/esteganografia.py:74-85 | per sample, `embed / 2^k == c / 2^k` (carrier's high bits kept) and `embed % 2^k == p / 2^(8-k)` (payload's top bits in the low bits) |
| `Steganography.EmbedDistortion` | src/esteganografia.py:74-85 | embedding moves a carrier sample by at most `2^k - 1` either way |
| `Steganography.EmbedFullDepth` | src/esteganografia.py:74-85 | at k = 8 the carrier mask is 0 and the stego sample equals the payload sample |
| `Steganography.ExtractZeroesLowBits` | src/esteganografia.py:100-103 | every extracted sample is divisible by `2^(8-k)` |
| `Steganography.ExtractFullDepth` | src/esteganografia.py:97-103 | at k = 8 extraction of a sample is the identity |
| `Steganography.RoundTripSample` | src/esteganografia.py:82-103 | `extract(embed(c, p, k), k) == (p / 2^(8-k)) * 2^(8-k)` whatever the carrier; the loss is in `[0, 2^(8-k))` |
| `Steganography.RoundTripSampleFullDepth` | src/esteganografia.py:82-103 | at k = 8 the payload sample is recovered exactly |
| `Steganography.WorkedExample` | src/esteganografia.py:74-103 | carrier 200, payload 100, k = 4 gives stego 198, which extracts to 96 |
| `Steganography.DistortionNotMonotoneInDepth` | src/esteganografia.py:74-85 | carrier 2 and payload 128 give distortion 1 at k = 1 and distortion 0 at k = 2 |
| `Steganography.Embed` | src/esteganografia.py:65-87 | the stego image has the carrier's structure, and each sample is EmbedSample of the corresponding carrier and payload samples |
| `Steganography.Extract` | src/esteganografia.py:89-103 | the extracted image has the stego image's structure, and each sample is ExtractSample of the corresponding stego sample |
| `Steganography.EmbedKeepsCarrier` | src/esteganografia.py:74-87 | for images of shape s, the stego image has shape s, keeps every carrier sample's high bits and holds every payload sample's top bits |
| `Steganography.EmbedImageDistortion` | src/esteganografia.py:74-87 | every stego sample is within `2^k - 1` of its carrier sample |
| `Steganography.EmbedImageFullDepth` | src/esteganografia.py:74-87 | `Embed(carrier, payload, 8) == payload` |
| `Steganography.ExtractImageTruncates` | src/esteganografia.py:97-103 | every extracted sample has its low `8-k` bits zero, and at k = 8 extraction returns the stego image unchanged |
| `Steganography.RoundTrip` | src/esteganografia.py:65-103 | extracting an embedded image gives the payload's structure, with every sample `(p / 2^(8-k)) * 2^(8-k)`, independent of the carrier |
| `Steganography.RoundTripFullDepth` | src/esteganografia.py:65-103 | at k = 8 extracting the embedded image gives back the payload image exactly |
| `Images.Height` | src/esteganografia.py:154 | `shape[0]` is the height of every shape the image has |
| `Images.Width` | src/esteganografia.py:155 | `shape[1]`, read off the first row, is the width of every shape a non-empty image has |
| `Images.Channels` | src/esteganografia.py:156-157 | `shape[2]`, read off the first pixel, is the channel count of every shape that has a pixel; the slice keeps that axis whole |
| `Alignment.Min` | src/esteganografia.py:154-155 | `min` is at most both arguments and is one of them |
| `Alignment.Slice` | src/esteganografia.py:156-157 | `img[:h, :w]` has `min(h, H)` rows of `min(w, row length)` pixels, and pixel (i, j) is the original's pixel (i, j) |
| `Alignment.CropToCommonSize` | src/esteganografia.py:154-157 | both cropped images have height `min(h1, h2)` and width `min(w1, w2)`, keep their channel counts, and keep every top-left pixel unchanged |
| `Alignment.Hide` | src/esteganografia.py:154-168 | crop then embed yields a stego image of the common size whose sample (i, j, c) embeds the originals' samples (i, j, c) |
| `Quality.Above` | src/esteganografia.py:56-60 | the float comparison `psnr > t`: false for NaN, true for +infinity, the real comparison otherwise |
| `Quality.Classify` | src/esteganografia.py:46-63 | with a bit count: Excellent iff `>= 6`, Good iff 4..5, Fair iff 2..3, Poor iff `<= 1`; without one: Excellent iff `psnr > 40`, Good iff in `(30, 40]`, Fair iff in `(20, 30]`, Poor otherwise (including NaN) |
| `Quality.BitsTakePriority` | src/esteganografia.py:46-55 | when a bit count is supplied the PSNR does not affect the label |
| `Quality.MonotoneInBits` | src/esteganografia.py:46-54 | more bits never give a lower label |
| `Quality.MonotoneInPsnr` | src/esteganografia.py:55-63 | a higher PSNR (up to +infinity) never gives a lower label |
| `Quality.RankCountsPsnrThresholds` | src/esteganografia.py:55-63 | the label's rank is the number of the thresholds 20, 30 and 40 that the PSNR strictly exceeds |
| `Quality.Boundaries` | src/esteganografia.py:46-63 | bits 6, 5, 3, 1 give Excellent, Good, Fair, Poor; PSNR 41, 40, 30.0001, 30, 20, +infinity and NaN give Excellent, Good, Good, Fair, Poor, Excellent and Poor |

## Left out

- Error metrics (`calcular_metricas`, src/esteganografia.py:18-34): floating-point normalisation, `np.mean`, `sqrt` and `log10`. PSNR enters the model only as the input of `Quality.Classify`, as a finite real, +infinity or NaN.
- The printing in `mostrar_metricas` (src/esteganografia.py:40-44 and each message at 48-63): the model returns the label, not the text.
- dtype conversion with `img_as_ubyte` / `img_as_float` (src/esteganografia.py:22-23, 70-71, 94, 118): library behaviour. Inputs are taken to be uint8 already, which the `Sample` type states.
- Colour conversion (`normalizar_imagen`, src/esteganografia.py:6-16) and the output-mode switch of `extraer_imagen` (src/esteganografia.py:105-110): these wrap a library's float luminance formula and its channel replication. `Steganography.Extract` models the integer part of `extraer_imagen` only.
- 2-D (grayscale) ndarrays: an image always has a channel axis here, and grayscale is one channel. The element-wise operations act on a 2-D array in the same way.
- File I/O (`guardar_imagen`, `cargar_imagen`, the file opening and download buttons, src/esteganografia.py:113-127, 174-184, 218-228) and all other Streamlit wiring (tabs, sliders, uploaders, buttons, image display, src/esteganografia.py:129-231): user interface, not computation.
- The exception handlers (src/esteganografia.py:189-190, 230-231): they turn any library error into a message. The model has no such errors, given its preconditions.
- Embed: requires the carrier and payload to have the same structure. The source passes any two arrays to numpy, whose broadcasting of mismatched shapes this code does not define. In the app the crop makes the heights and widths equal.
- Hide: requires equal channel counts. In the app both images have first been converted to RGB. A mismatch that remains (RGBA against RGB, say) makes numpy raise, and the handler at src/esteganografia.py:189-190 shows a message. That path is not modelled.
- Depths outside 1..8: the sliders never produce them, and the source does not check for them, so `Depth` excludes them.
