/** The frame-delay scan of `getGifDuration` (overlays/script.js:637-683),
    over bytes already fetched. The scan follows the code as written, not the
    GIF89a standard: it jumps from the signature straight to offset 13, does
    not skip Global or Local Color Tables, and reads the LZW minimum code size
    byte after an Image Descriptor as if it were a sub-block length. */
module Gif {

  /** One element of a `Uint8Array`. */
  type Byte = x: int | 0 <= x < 256

  const ExtensionIntroducer: int := 0x21
  const GraphicControlLabel: int := 0xF9
  const ImageSeparator: int := 0x2C
  const Trailer: int := 0x3B

  /** The cursor position the scan starts from (header and Logical Screen Descriptor skipped). */
  const ScanStart: int := 13

  /** `bytes[i]`. A read outside the array gives `undefined`, which fails every
      `===` test of the scan and counts as 0 under `|` and `<<`, so it is 0 here. */
  function At(b: seq<Byte>, i: int): (v: int)
    ensures 0 <= v < 256
    ensures 0 <= i < |b| ==> v == b[i]
    ensures !(0 <= i < |b|) ==> v == 0
  {
    if 0 <= i < |b| then b[i] else 0
  }

  /** The `G I F` signature test at offsets 0..2. */
  predicate HasSignature(b: seq<Byte>) {
    At(b, 0) == 0x47 && At(b, 1) == 0x49 && At(b, 2) == 0x46
  }

  /** The scan sees a Graphic Control Extension at `i`. */
  predicate IsGce(b: seq<Byte>, i: int) {
    At(b, i) == ExtensionIntroducer && At(b, i + 1) == GraphicControlLabel
  }

  /** `bytes[i + 4] | (bytes[i + 5] << 8)`: both operands are bytes, so the
      bitwise or of the low byte and the shifted high byte is their sum. */
  function FrameDelay(b: seq<Byte>, i: int): (d: int)
    ensures 0 <= d < 65536
  {
    At(b, i + 4) + 256 * At(b, i + 5)
  }

  /** Milliseconds the visit at `i` adds: 10 per centisecond of a GCE delay. */
  function Gain(b: seq<Byte>, i: int): (g: int)
    ensures g >= 0 && g % 10 == 0
    ensures !IsGce(b, i) ==> g == 0
  {
    if IsGce(b, i) then 10 * FrameDelay(b, i) else 0
  }

  /** The inner `while` of the Image Descriptor branch: hop over
      length-prefixed sub-blocks from `i` until a zero byte or the end. */
  function SkipSubBlocks(b: seq<Byte>, i: int): (r: int)
    requires i >= 0
    ensures r >= i
    ensures r < |b| ==> b[r] == 0
    decreases |b| - i
  {
    if i < |b| && b[i] != 0 then SkipSubBlocks(b, i + b[i] + 1) else i
  }

  /** Where the cursor goes after a visit at `i` that is not the trailer. */
  function Next(b: seq<Byte>, i: int): (j: int)
    requires i >= 0
    ensures j > i
  {
    if IsGce(b, i) then i + 8
    else if At(b, i) == ImageSeparator then SkipSubBlocks(b, i + 10) + 1
    else i + 1
  }

  /** The outer loop stops at `i`: past the end, or on the trailer. */
  predicate Stops(b: seq<Byte>, i: int) {
    i >= |b| || At(b, i) == Trailer
  }

  /** Milliseconds the outer loop accumulates from cursor `i` on. */
  function ScanFrom(b: seq<Byte>, i: int): (ms: int)
    requires i >= 0
    ensures ms >= 0 && ms % 10 == 0
    decreases |b| - i
  {
    if Stops(b, i) then 0 else Gain(b, i) + ScanFrom(b, Next(b, i))
  }

  /** What `getGifDuration` resolves to for the fetched bytes `b`: the sum of
      the delays at the positions the scan visits, or 0 without a signature. */
  function GifDuration(b: seq<Byte>): (ms: int)
    ensures HasSignature(b) ==> ms == SumGains(b, Visits(b, ScanStart))
    ensures !HasSignature(b) ==> ms == 0
  {
    if HasSignature(b) then ScanIsSumOverVisits(b, ScanStart); ScanFrom(b, ScanStart) else 0
  }

  /** The byte scan as the source writes it: a `while` over `index` with a
      nested `while` for image sub-blocks, accumulating `duration`. */
  method GetGifDuration(bytes: seq<Byte>) returns (duration: int)
    ensures duration == GifDuration(bytes)
  {
    duration := 0;
    if At(bytes, 0) != 0x47 || At(bytes, 1) != 0x49 || At(bytes, 2) != 0x46 {
      return 0;
    }
    var index := 13;
    while index < |bytes|
      invariant index >= 0
      invariant duration + ScanFrom(bytes, index) == GifDuration(bytes)
      decreases |bytes| - index
    {
      if bytes[index] == 0x21 && At(bytes, index + 1) == 0xF9 {
        var delay := At(bytes, index + 4) + 256 * At(bytes, index + 5);
        duration := duration + delay * 10;
        index := index + 8;
      } else if bytes[index] == 0x2C {
        ghost var start := index;
        index := index + 10;
        while index < |bytes| && bytes[index] != 0x00
          invariant start + 10 <= index
          invariant SkipSubBlocks(bytes, index) == SkipSubBlocks(bytes, start + 10)
          decreases |bytes| - index
        {
          var blockSize := bytes[index];
          index := index + blockSize + 1;
        }
        index := index + 1;
        assert index == Next(bytes, start);
      } else if bytes[index] == 0x3B {
        break;
      } else {
        index := index + 1;
      }
    }
  }

  // ---------------------------------------------------------------------
  // The signature check

  /** Without the `G I F` signature, including any input shorter than three
      bytes, the duration is 0, the value the `catch` returns. */
  lemma NoSignatureNoDuration(b: seq<Byte>)
    requires |b| < 3 || b[0] != 0x47 || b[1] != 0x49 || b[2] != 0x46
    ensures GifDuration(b) == 0
  {
  }

  /** Every input has a duration: a non-negative whole number of centiseconds. */
  lemma DurationIsCentiseconds(b: seq<Byte>)
    ensures GifDuration(b) >= 0 && GifDuration(b) % 10 == 0
  {
  }

  // ---------------------------------------------------------------------
  // The visited positions, as an independent view of the scan

  /** The cursor positions the outer loop examines, from `i` on. */
  function Visits(b: seq<Byte>, i: int): (v: seq<int>)
    requires i >= 0
    decreases |b| - i
  {
    if i >= |b| then []
    else if At(b, i) == Trailer then [i]
    else [i] + Visits(b, Next(b, i))
  }

  /** Sum of the GCE delays (in ms) at positions `ps`. */
  function SumGains(b: seq<Byte>, ps: seq<int>): int {
    if ps == [] then 0 else Gain(b, ps[0]) + SumGains(b, ps[1..])
  }

  /** The scan's positions strictly increase, all lie inside the bytes, and
      only the last one may be a trailer: the loop stops at the first visited
      `0x3B`; when the last visit is not a trailer, the cursor leaves the bytes. */
  lemma {:induction false} VisitsShape(b: seq<Byte>, i: int)
    requires i >= 0
    ensures var v := Visits(b, i);
      && (forall k :: 0 <= k < |v| ==> i <= v[k] < |b|)
      && (forall k, l :: 0 <= k < l < |v| ==> v[k] < v[l])
      && (forall k :: 0 <= k < |v| - 1 ==> b[v[k]] != Trailer)
      && (v != [] && b[v[|v| - 1]] != Trailer ==> Next(b, v[|v| - 1]) >= |b|)
    decreases |b| - i
  {
    if i < |b| && At(b, i) != Trailer {
      VisitsShape(b, Next(b, i));
    }
  }

  /** The accumulated duration is the sum of 10 × delay over exactly the
      GCE positions the scan visits. */
  lemma {:induction false} ScanIsSumOverVisits(b: seq<Byte>, i: int)
    requires i >= 0
    ensures ScanFrom(b, i) == SumGains(b, Visits(b, i))
    decreases |b| - i
  {
    if i >= |b| {
    } else if At(b, i) == Trailer {
      assert Visits(b, i) == [i];
      assert SumGains(b, [i]) == Gain(b, i) + SumGains(b, []);
    } else {
      var rest := Visits(b, Next(b, i));
      ScanIsSumOverVisits(b, Next(b, i));
      assert Visits(b, i) == [i] + rest;
      assert ([i] + rest)[1..] == rest;
    }
  }

  // ---------------------------------------------------------------------
  // A worked example: two frames of 10 and 20 centiseconds

  /** `GIF89a`, a 7-byte screen descriptor, two GCEs with delays 10 and 20, the trailer. */
  const TwoFrames: seq<Byte> :=
    [0x47, 0x49, 0x46, 0x38, 0x39, 0x61, 1, 0, 1, 0, 0, 0, 0] +
    [0x21, 0xF9, 4, 0, 10, 0, 0, 0] +
    [0x21, 0xF9, 4, 0, 20, 0, 0, 0] +
    [0x3B]

  lemma TwoFramesLast300ms()
    ensures GifDuration(TwoFrames) == 300
  {
    var b := TwoFrames;
    assert |b| == 30;
    assert HasSignature(b);
    assert Stops(b, 29);
    assert ScanFrom(b, 29) == 0;
    assert IsGce(b, 21) && FrameDelay(b, 21) == 20;
    assert ScanFrom(b, 21) == 200;
    assert IsGce(b, 13) && FrameDelay(b, 13) == 10;
    assert ScanFrom(b, 13) == 300;
  }

  /** Changing the signature of the same bytes gives 0. */
  lemma BadSignatureGivesZero()
    ensures GifDuration(TwoFrames[0 := 0x50]) == 0
  {
    assert !HasSignature(TwoFrames[0 := 0x50]);
  }
}
