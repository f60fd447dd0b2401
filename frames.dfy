/** The frame producer of the program: a package-level frame counter and the
    callback that, on every call, advances the counter and paints a fresh
    500 x 500 image with a gradient that scrolls with the counter. */
module Frames {
  import opened GoInt
  import opened Color

  /** The dimensions of every frame (the rectangle passed to `image.NewRGBA`
      and the bounds of both loops). */
  const Width: nat := 500
  const Height: nat := 500

  /** The pixel the producer writes at column `x`, row `y` when the counter
      holds `offset`: red and green scroll with the counter, blue and alpha
      are fixed. */
  function Gradient(x: nat, y: nat, offset: nat): (c: RGBA)
    ensures c.r < 255 && c.g < 255
    ensures c.b == 150 && c.a == 255
  {
    RGBA(ToUint8(Rem(x + offset, 255)), ToUint8(Rem(y + offset, 255)), 150, 255)
  }

  /** `img` is exactly one frame: Width x Height and every pixel in place. */
  ghost predicate IsFrame(img: array2<RGBA>, offset: nat)
    reads img
  {
    img.Length0 == Width && img.Length1 == Height &&
    forall x, y :: 0 <= x < Width && 0 <= y < Height ==> img[x, y] == Gradient(x, y, offset)
  }

  /** Two counter values yield the same frame. */
  ghost predicate SameFrame(o1: nat, o2: nat)
  {
    forall x: nat, y: nat :: x < Width && y < Height ==> Gradient(x, y, o1) == Gradient(x, y, o2)
  }

  /** The producer's state: the package-level counter `offset`. */
  class Producer {
    var offset: nat

    /** The counter starts at Go's zero value. */
    constructor ()
      ensures offset == 0
    {
      offset := 0;
    }

    /** The per-frame callback: allocate a zeroed frame, advance the counter by
        one, then fill the frame column by column from the new counter value. */
    method UpdateFrame() returns (img: array2<RGBA>)
      modifies this
      ensures offset == old(offset) + 1
      ensures fresh(img)
      ensures IsFrame(img, offset)
    {
      img := new RGBA[Width, Height]((x, y) => Transparent);
      offset := offset + 1;

      for x := 0 to Width
        invariant offset == old(offset) + 1
        invariant forall i, j :: 0 <= i < x && 0 <= j < Height ==> img[i, j] == Gradient(i, j, offset)
        invariant forall i, j :: x <= i < Width && 0 <= j < Height ==> img[i, j] == Transparent
      {
        for y := 0 to Height
          invariant offset == old(offset) + 1
          invariant forall i, j :: 0 <= i < x && 0 <= j < Height ==> img[i, j] == Gradient(i, j, offset)
          invariant forall j :: 0 <= j < y ==> img[x, j] == Gradient(x, j, offset)
          invariant forall j :: y <= j < Height ==> img[x, j] == Transparent
          invariant forall i, j :: x < i < Width && 0 <= j < Height ==> img[i, j] == Transparent
        {
          var c := RGBA(ToUint8(Rem(x + offset, 255)), ToUint8(Rem(y + offset, 255)), 150, 255);
          img[x, y] := c;
        }
      }
    }
  }

  /** The red and green channels are residues modulo 255, so they never reach
      255 and the conversion to `uint8` loses nothing. */
  lemma ChannelsLossless(x: nat, y: nat, offset: nat)
    ensures Gradient(x, y, offset).r as int == (x + offset) % 255
    ensures Gradient(x, y, offset).g as int == (y + offset) % 255
  {
  }

  /** Adding whole multiples of 255 to a non-negative value does not change the
      remainder the channels are computed from. */
  lemma {:induction false} ChannelResiduePeriodic(v: nat, k: nat)
    ensures Rem(v + 255 * k, 255) == Rem(v, 255)
  {
    if k > 0 {
      ChannelResiduePeriodic(v, k - 1);
      assert v + 255 * k == (v + 255 * (k - 1)) + 255;
    }
  }

  /** Advancing the counter by a multiple of 255 leaves every pixel unchanged. */
  lemma GradientPeriodic(x: nat, y: nat, offset: nat, k: nat)
    ensures Gradient(x, y, offset + 255 * k) == Gradient(x, y, offset)
  {
    ChannelResiduePeriodic(x + offset, k);
    ChannelResiduePeriodic(y + offset, k);
    assert x + (offset + 255 * k) == (x + offset) + 255 * k;
    assert y + (offset + 255 * k) == (y + offset) + 255 * k;
  }

  /** Counters congruent modulo 255 paint the same pixel. */
  lemma GradientCongruent(x: nat, y: nat, o1: nat, o2: nat)
    requires o1 % 255 == o2 % 255
    ensures Gradient(x, y, o1) == Gradient(x, y, o2)
  {
    if o1 <= o2 {
      var k := (o2 - o1) / 255;
      assert o2 == o1 + 255 * k;
      GradientPeriodic(x, y, o1, k);
    } else {
      var k := (o1 - o2) / 255;
      assert o1 == o2 + 255 * k;
      GradientPeriodic(x, y, o2, k);
    }
  }

  /** The frame depends on the counter only modulo 255: two counter values give
      the same frame exactly when they differ by a multiple of 255. */
  lemma SameFrameIff(o1: nat, o2: nat)
    ensures SameFrame(o1, o2) <==> o1 % 255 == o2 % 255
  {
    if o1 % 255 == o2 % 255 {
      forall x: nat, y: nat | x < Width && y < Height
        ensures Gradient(x, y, o1) == Gradient(x, y, o2)
      {
        GradientCongruent(x, y, o1, o2);
      }
    } else {
      ChannelsLossless(0, 0, o1);
      ChannelsLossless(0, 0, o2);
      assert Gradient(0, 0, o1).r != Gradient(0, 0, o2).r;
    }
  }

  /** One more call scrolls the gradient by one pixel: the red channel of
      column x becomes that of column x + 1 in the previous frame, the green
      channel of row y that of row y + 1. */
  lemma NextFrameScrolls(x: nat, y: nat, offset: nat)
    ensures Gradient(x, y, offset + 1).r == Gradient(x + 1, y, offset).r
    ensures Gradient(x, y, offset + 1).g == Gradient(x, y + 1, offset).g
  {
    assert x + (offset + 1) == (x + 1) + offset;
    assert y + (offset + 1) == (y + 1) + offset;
  }

  /** One more call advances the red and green channels of every pixel by one,
      wrapping from 254 back to 0. */
  lemma NextFrameAdvances(x: nat, y: nat, offset: nat)
    ensures Gradient(x, y, offset + 1).r as int == (Gradient(x, y, offset).r as int + 1) % 255
    ensures Gradient(x, y, offset + 1).g as int == (Gradient(x, y, offset).g as int + 1) % 255
  {
    ChannelsLossless(x, y, offset);
    ChannelsLossless(x, y, offset + 1);
  }

  /** Two successive calls of the callback: the second frame is the first one
      advanced by one step in every pixel. */
  method ConsecutiveFrames(p: Producer) returns (first: array2<RGBA>, second: array2<RGBA>)
    modifies p
    ensures p.offset == old(p.offset) + 2
    ensures fresh(first) && fresh(second) && first != second
    ensures IsFrame(first, old(p.offset) + 1) && IsFrame(second, p.offset)
    ensures forall x, y :: 0 <= x < Width && 0 <= y < Height ==>
              second[x, y].r as int == (first[x, y].r as int + 1) % 255 &&
              second[x, y].g as int == (first[x, y].g as int + 1) % 255
  {
    first := p.UpdateFrame();
    second := p.UpdateFrame();
    forall x, y | 0 <= x < Width && 0 <= y < Height
      ensures second[x, y].r as int == (first[x, y].r as int + 1) % 255
      ensures second[x, y].g as int == (first[x, y].g as int + 1) % 255
    {
      NextFrameAdvances(x, y, old(p.offset) + 1);
    }
  }
}
