/** Packing a frame into the panel's big-endian RGB565 wire format, and sending it. */
module Rgb565 {

  const SCREEN_W := 320
  const SCREEN_H := 240
  const CHUNK := 4096

  /** An RGBA image: four bytes a pixel, rows `stride` bytes apart. */
  datatype Image = Image(pix: seq<bv8>, stride: nat)
  {
    /** Every pixel of the screen is there. */
    ghost predicate CoversScreen() {
      forall x, y :: 0 <= x < SCREEN_W && 0 <= y < SCREEN_H ==> 0 <= PixOffset(x, y) <= |pix| - 4
    }

    function PixOffset(x: int, y: int): int {
      y * stride + x * 4
    }
  }

  /** One packed pixel: five bits of red, six of green, five of blue. */
  function Word(r: bv8, g: bv8, b: bv8): bv16 {
    ((r & 0xF8) as bv16 << 8) | ((g & 0xFC) as bv16 << 3) | (b as bv16 >> 3)
  }

  /** The word of the pixel in column x of row y. */
  function WordAt(img: Image, x: int, y: int): bv16
    requires img.CoversScreen() && 0 <= x < SCREEN_W && 0 <= y < SCREEN_H
  {
    var o := img.PixOffset(x, y);
    Word(img.pix[o], img.pix[o + 1], img.pix[o + 2])
  }

  /** The image's words in reading order. */
  function Words(img: Image): (words: seq<bv16>)
    requires img.CoversScreen()
    ensures |words| == SCREEN_W * SCREEN_H
  {
    seq(SCREEN_W * SCREEN_H, p requires 0 <= p < SCREEN_W * SCREEN_H => WordAt(img, p % SCREEN_W, p / SCREEN_W))
  }

  function Reversed<T>(s: seq<T>): (r: seq<T>)
    ensures |r| == |s|
    ensures forall k :: 0 <= k < |s| ==> r[k] == s[|s| - 1 - k]
  {
    seq(|s|, k requires 0 <= k < |s| => s[|s| - 1 - k])
  }

  /** Byte pair number p holds this word, high byte first. */
  predicate Pair(bytes: seq<bv8>, p: nat, word: bv16) {
    2 * p + 1 < |bytes| && bytes[2 * p] == (word >> 8) as bv8 && bytes[2 * p + 1] == (word & 0xFF) as bv8
  }

  ghost predicate BigEndian(bytes: seq<bv8>, words: seq<bv16>) {
    |bytes| == 2 * |words| && forall p :: 0 <= p < |words| ==> Pair(bytes, p, words[p])
  }

  /** Which column and row feeds byte pair number p. */
  function Source(p: nat, rotate180: bool): (xy: (int, int))
    requires p < SCREEN_W * SCREEN_H
    ensures 0 <= xy.0 < SCREEN_W && 0 <= xy.1 < SCREEN_H
  {
    var x, y := p % SCREEN_W, p / SCREEN_W;
    if rotate180 then (SCREEN_W - 1 - x, SCREEN_H - 1 - y) else (x, y)
  }

  lemma SourceReversed(p: nat)
    requires p < SCREEN_W * SCREEN_H
    ensures Source(p, true) == Source(SCREEN_W * SCREEN_H - 1 - p, false)
  {
    var q := SCREEN_W * SCREEN_H - 1 - p;
    assert q == (SCREEN_H - 1 - p / SCREEN_W) * SCREEN_W + (SCREEN_W - 1 - p % SCREEN_W);
  }

  lemma SourceOf(x: nat, y: nat, rotate180: bool)
    requires x < SCREEN_W && y < SCREEN_H
    ensures y * SCREEN_W + x < SCREEN_W * SCREEN_H
    ensures Source(y * SCREEN_W + x, rotate180) ==
              if rotate180 then (SCREEN_W - 1 - x, SCREEN_H - 1 - y) else (x, y)
  {
  }

  /** Fills exactly two bytes a pixel; turning the panel upside down sends the same words in reverse. */
  method ToRgb565(img: Image, rotate180: bool) returns (out: array<bv8>)
    requires img.CoversScreen()
    ensures fresh(out)
    ensures BigEndian(out[..], if rotate180 then Reversed(Words(img)) else Words(img))
  {
    hide Word, WordAt, Source, Filled, Pair, BigEndian, Reversed, Words;
    out := new bv8[SCREEN_W * SCREEN_H * 2];
    FilledNone(img, rotate180, out[..]);
    var i := 0;
    for y := 0 to SCREEN_H
      invariant i == 2 * (y * SCREEN_W)
      invariant Filled(img, rotate180, out[..], y * SCREEN_W)
    {
      for x := 0 to SCREEN_W
        invariant i == 2 * (y * SCREEN_W + x)
        invariant Filled(img, rotate180, out[..], y * SCREEN_W + x)
      {
        var sx, sy := x, y;
        if rotate180 {
          sx, sy := SCREEN_W - 1 - x, SCREEN_H - 1 - y;
        }
        var o := img.PixOffset(sx, sy);
        var r, g, b := img.pix[o], img.pix[o + 1], img.pix[o + 2];
        var v := Word(r, g, b);
        WordFrom(img, sx, sy);
        ghost var before := out[..];
        out[i] := (v >> 8) as bv8;
        out[i + 1] := (v & 0xFF) as bv8;
        SourceOf(x, y, rotate180);
        FilledOneMore(img, rotate180, before, out[..], y * SCREEN_W + x, v);
        i := i + 2;
      }
    }
    FilledIsBigEndian(img, rotate180, out[..]);
  }

  /** The first n byte pairs are done. */
  ghost predicate Filled(img: Image, rotate180: bool, bytes: seq<bv8>, n: nat)
    requires img.CoversScreen() && n <= SCREEN_W * SCREEN_H
  {
    && |bytes| == SCREEN_W * SCREEN_H * 2
    && forall p :: 0 <= p < n ==> Pair(bytes, p, WordAt(img, Source(p, rotate180).0, Source(p, rotate180).1))
  }

  lemma FilledNone(img: Image, rotate180: bool, bytes: seq<bv8>)
    requires img.CoversScreen() && |bytes| == SCREEN_W * SCREEN_H * 2
    ensures Filled(img, rotate180, bytes, 0)
  {
  }

  lemma WordFrom(img: Image, x: int, y: int)
    requires img.CoversScreen() && 0 <= x < SCREEN_W && 0 <= y < SCREEN_H
    ensures var o := img.PixOffset(x, y);
            0 <= o <= |img.pix| - 4 && WordAt(img, x, y) == Word(img.pix[o], img.pix[o + 1], img.pix[o + 2])
  {
    hide Word;
  }

  lemma FilledOneMore(img: Image, rotate180: bool, before: seq<bv8>, bytes: seq<bv8>, n: nat, v: bv16)
    requires img.CoversScreen() && n < SCREEN_W * SCREEN_H && Filled(img, rotate180, before, n)
    requires v == WordAt(img, Source(n, rotate180).0, Source(n, rotate180).1)
    requires bytes == before[2 * n := (v >> 8) as bv8][2 * n + 1 := (v & 0xFF) as bv8]
    ensures Filled(img, rotate180, bytes, n + 1)
  {
    hide Word, WordAt, Source;
  }

  lemma FilledIsBigEndian(img: Image, rotate180: bool, bytes: seq<bv8>)
    requires img.CoversScreen() && Filled(img, rotate180, bytes, SCREEN_W * SCREEN_H)
    ensures BigEndian(bytes, if rotate180 then Reversed(Words(img)) else Words(img))
  {
    hide Word, WordAt, Pair;
    var words := if rotate180 then Reversed(Words(img)) else Words(img);
    forall p: nat | p < |words|
      ensures Pair(bytes, p, words[p])
    {
      SourceReversed(p);
      assert Pair(bytes, p, WordAt(img, Source(p, rotate180).0, Source(p, rotate180).1));
    }
  }

  // ---- What the packing keeps -------------------------------------------------------------

  /** Green above blue, and red above both. */
  function Middle(b: bv16, c: bv16): bv16 {
    b * 32 + c
  }

  function Fields(a: bv16, d: bv16): bv16 {
    a * 2048 + d
  }

  lemma WordBits(r: bv8, g: bv8, b: bv8)
    ensures Word(r, g, b) == Fields(r as bv16 / 8, Middle(g as bv16 / 4, b as bv16 / 8))
    ensures r as bv16 / 8 < 32 && g as bv16 / 4 < 64 && b as bv16 / 8 < 32
  {
  }

  lemma Eighth(c: bv8)
    ensures (c as bv16 / 8) as int == c as int / 8 && (c as bv16 / 4) as int == c as int / 4
  {
  }

  lemma FieldsValue(a: bv16, d: bv16)
    requires a < 32 && d < 2048
    ensures (a * 2048 + d) as int == a as int * 2048 + d as int
    ensures Fields(a, d) == a * 2048 + d
  {
  }

  lemma MiddleValue(b: bv16, c: bv16)
    requires b < 64 && c < 32
    ensures Middle(b, c) < 2048 && Middle(b, c) as int == b as int * 32 + c as int
  {
  }

  /** The word as a number. */
  lemma WordValue(r: bv8, g: bv8, b: bv8)
    ensures Word(r, g, b) as int == (r as int / 8) * 2048 + (g as int / 4) * 32 + b as int / 8
  {
    hide Word, Fields, Middle;
    WordBits(r, g, b);
    Eighth(r);
    Eighth(g);
    Eighth(b);
    MiddleValue(g as bv16 / 4, b as bv16 / 8);
    FieldsValue(r as bv16 / 8, Middle(g as bv16 / 4, b as bv16 / 8));
  }

  /** What the panel shows for a word. */
  function Unpack(word: bv16): (int, int, int) {
    var w := word as int;
    (w / 2048 * 8, w / 32 % 64 * 4, w % 32 * 8)
  }

  /** A colour loses less than 8 levels of red and blue, and less than 4 of green, and never brightens. */
  lemma ChannelLoss(r: bv8, g: bv8, b: bv8)
    ensures var shown := Unpack(Word(r, g, b));
            && 0 <= r as int - shown.0 < 8 && 0 <= g as int - shown.1 < 4 && 0 <= b as int - shown.2 < 8
  {
    hide Word;
    WordValue(r, g, b);
    ByteRange(r);
    ByteRange(g);
    ByteRange(b);
    Loss(r as int, g as int, b as int, Word(r, g, b) as int);
  }

  lemma ByteRange(c: bv8)
    ensures 0 <= c as int < 256
  {
  }

  lemma Loss(r: int, g: int, b: int, w: int)
    requires 0 <= r < 256 && 0 <= g < 256 && 0 <= b < 256
    requires w == (r / 8) * 2048 + (g / 4) * 32 + b / 8
    ensures 0 <= r - w / 2048 * 8 < 8 && 0 <= g - w / 32 % 64 * 4 < 4 && 0 <= b - w % 32 * 8 < 8
  {
    assert w / 2048 == r / 8 && w / 32 == (r / 8) * 64 + g / 4;
  }

  // ---- Sending ----------------------------------------------------------------------------

  function Concat(parts: seq<seq<bv8>>): seq<bv8> {
    if parts == [] then [] else Concat(parts[..|parts| - 1]) + parts[|parts| - 1]
  }

  lemma ConcatOneMore(parts: seq<seq<bv8>>, part: seq<bv8>)
    ensures Concat(parts + [part]) == Concat(parts) + part
  {
    assert (parts + [part])[..|parts|] == parts;
  }

  /**
   The chunking loop; transfer number k fails when `fails(k)`. Everything sent is the front of the buffer, in
   order, in full chunks but for the last; on success it is the whole buffer, and on failure the transfers
   before the failing one.
   */
  method Send(pix: array<bv8>, fails: nat -> bool) returns (sent: seq<seq<bv8>>, ok: bool)
    ensures forall k :: 0 <= k < |sent| ==> 0 < |sent[k]| <= 4096 && !fails(k)
    ensures forall k :: 0 <= k < |sent| - 1 ==> |sent[k]| == 4096
    ensures Concat(sent) <= pix[..]
    ensures ok ==> Concat(sent) == pix[..]
    ensures !ok ==> fails(|sent|) && |Concat(sent)| == |sent| * CHUNK < pix.Length
  {
    sent := [];
    var s := 0;
    while s < pix.Length
      invariant s == |sent| * CHUNK || s >= pix.Length
      invariant s < pix.Length ==> forall k :: 0 <= k < |sent| ==> |sent[k]| == CHUNK
      invariant forall k :: 0 <= k < |sent| ==> 0 < |sent[k]| <= CHUNK && !fails(k)
      invariant forall k :: 0 <= k < |sent| - 1 ==> |sent[k]| == CHUNK
      invariant Concat(sent) == pix[..if s < pix.Length then s else pix.Length]
      decreases pix.Length - s
    {
      var e := if s + CHUNK < pix.Length then s + CHUNK else pix.Length;
      if fails(|sent|) {
        return sent, false;
      }
      ConcatOneMore(sent, pix[s..e]);
      assert pix[..s] + pix[s..e] == pix[..e];
      sent := sent + [pix[s..e]];
      s := s + CHUNK;
    }
    ok := true;
  }

  /** The byte pair's value, high byte first. */
  lemma PairValue(bytes: seq<bv8>, p: nat, word: bv16)
    requires Pair(bytes, p, word)
    ensures 2 * p + 1 < |bytes| && bytes[2 * p] as int * 256 + bytes[2 * p + 1] as int == word as int
  {
    Halves(word);
  }

  lemma Halves(word: bv16)
    ensures (word >> 8) as bv8 as int * 256 + (word & 0xFF) as bv8 as int == word as int
  {
    HalfBits(word);
    HalvesValue(word >> 8, word & 0xFF);
    NarrowValue(word >> 8);
    NarrowValue(word & 0xFF);
  }

  lemma HalfBits(word: bv16)
    ensures word >> 8 < 256 && word & 0xFF < 256 && word == (word >> 8) * 256 + (word & 0xFF)
  {
  }

  lemma HalvesValue(high: bv16, low: bv16)
    requires high < 256 && low < 256
    ensures (high * 256 + low) as int == high as int * 256 + low as int
  {
  }

  lemma NarrowValue(half: bv16)
    requires half < 256
    ensures (half as bv8) as int == half as int
  {
  }

  /**
   Where a pixel ends up: counting pairs from the first row's left, or from the last row's right when the panel
   is upside down, its pair holds five bits of its red, six of its green and five of its blue.
   */
  lemma PixelIsSent(img: Image, rotate180: bool, bytes: seq<bv8>, x: nat, y: nat)
    requires img.CoversScreen() && x < 320 && y < 240
    requires BigEndian(bytes, if rotate180 then Reversed(Words(img)) else Words(img))
    ensures var o := y * img.stride + x * 4;
            var p := if rotate180 then (239 - y) * 320 + (319 - x) else y * 320 + x;
            && 0 <= o <= |img.pix| - 4 && 2 * p + 1 < |bytes| && |bytes| == 320 * 240 * 2
            && bytes[2 * p] as int * 256 + bytes[2 * p + 1] as int
               == (img.pix[o] as int / 8) * 2048 + (img.pix[o + 1] as int / 4) * 32 + img.pix[o + 2] as int / 8
  {
    hide Word, Pair, WordAt;
    var p := if rotate180 then (239 - y) * 320 + (319 - x) else y * 320 + x;
    var o := y * img.stride + x * 4;
    WordFrom(img, x, y);
    WordValue(img.pix[o], img.pix[o + 1], img.pix[o + 2]);
    WordsAt(img, x, y);
    PairValue(bytes, p, WordAt(img, x, y));
  }

  lemma WordsAt(img: Image, x: nat, y: nat)
    requires img.CoversScreen() && x < 320 && y < 240
    ensures Words(img)[y * 320 + x] == WordAt(img, x, y)
    ensures Reversed(Words(img))[(239 - y) * 320 + (319 - x)] == WordAt(img, x, y)
  {
    hide WordAt;
    SourceOf(x, y, false);
    assert (y * 320 + x) % 320 == x && (y * 320 + x) / 320 == y;
    assert 320 * 240 - 1 - ((239 - y) * 320 + (319 - x)) == y * 320 + x;
  }
}
