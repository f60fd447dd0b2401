# Scrolling-gradient frame producer

This project models the frame producer of a small Go program that shows a
window through OpenGL. The renderer calls the producer once per displayed
frame. Each call of the producer `updateFrame` does three things. It allocates
a zero-filled 500 x 500 RGBA image. It increments the package-level counter
`offset`. It then paints every pixel with a gradient computed from the new
counter value: red is `(x + offset) % 255`, green is `(y + offset) % 255`,
blue is 150 and alpha is 255. Because the counter grows by one per frame, the
gradient scrolls.

The model has three modules:

- `GoInt` (goint.dfy) writes out the Go integer operations the producer
  uses. `Uint8` is Go's `uint8`. `ToUint8` is the conversion `uint8(v)`,
  which keeps the residue modulo 256. `Rem` is Go's `%` on `int`, which
  truncates toward zero.
- `Color` (color.dfy) holds `RGBA`, the pixel type `color.RGBA`, and its
  zero value `Transparent`.
- `Frames` (frames.dfy) is `main.go`. It defines the frame size
  (`Width`, `Height`), the per-pixel formula `Gradient` and the predicate
  `IsFrame`, which says an image is exactly one frame. The class `Producer`
  holds the counter `offset` as a field. Its method `UpdateFrame` allocates
  an `array2<RGBA>` filled with `Transparent` and increments the counter. It
  then fills the array with the same nested `for x` / `for y` loops as the
  source. Lemmas then state what the frames are as a function of the counter:
  they give the periodicity modulo 255 in both directions, the one-step
  scroll and the one-step advance of each channel.

`img.Set(x, y, c)` is modelled as the array assignment `img[x, y] := c`.
Every (x, y) the loops visit lies inside the image, so the bounds test that
Go's `Set` makes always passes.

## Model

| member | source | states |
|---|---|---|
| `GoInt.ToUint8` | main.go:24-25 | the `uint8` conversion is lossless on 0..255 and always differs from its argument by a multiple of 256 |
| `GoInt.Rem` | main.go:24-25 | Go's `%` lies in [0, m) for a non-negative dividend and in (-m, 0] for a negative one; on non-negative dividends it agrees with the Euclidean remainder |
| `Frames.Gradient` | main.go:23-28 | every pixel has red and green strictly below 255, blue 150 and alpha 255 |
| `Frames.Producer.constructor` | main.go:9 | the frame counter starts at Go's zero value 0 |
| `Frames.Producer.UpdateFrame` | main.go:16-33 | the counter grows by exactly one; the returned image is freshly allocated, exactly 500 x 500, and every pixel (x, y) is the gradient of the NEW counter value; the loop invariants say that the finished columns hold their formula values and the rest are still zero from allocation |
| `Frames.ChannelsLossless` | main.go:24-25 | the red channel of pixel (x, y) equals (x + offset) mod 255 and the green channel (y + offset) mod 255, with nothing lost by the `uint8` conversion |
| `Frames.ChannelResiduePeriodic` | main.go:24-25 | adding a multiple of 255 to a non-negative value leaves its remainder modulo 255 unchanged |
| `Frames.GradientPeriodic` | main.go:24-27 | advancing the counter by any multiple of 255 leaves every pixel unchanged |
| `Frames.GradientCongruent` | main.go:24-27 | counter values congruent modulo 255 paint the same pixel at every (x, y) |
| `Frames.SameFrameIff` | main.go:21-31 | two counter values produce the same 500 x 500 frame exactly when they are congruent modulo 255 (both directions) |
| `Frames.NextFrameScrolls` | main.go:18-25 | after one more call, the red channel at column x is the previous frame's red at column x + 1, and the green channel at row y is the previous green at row y + 1 |
| `Frames.NextFrameAdvances` | main.go:18-25 | after one more call, the red and green channels of every pixel grow by one, wrapping from 254 to 0 |
| `Frames.ConsecutiveFrames` | main.go:16-33 | two successive calls yield two distinct fresh frames for counters n + 1 and n + 2, and every red and green channel of the second is that of the first advanced by one modulo 255 |

## Left out

- `renderer/renderer.go` as a whole: window and context creation, shader compilation, texture allocation and upload, vertex buffers, the draw loop and the OS-thread pinning. It consists of calls into the GLFW and OpenGL bindings and has no logic of its own.
- The copy of each frame into the renderer's staging image with `draw.Draw` (renderer/renderer.go:107): it is a call into Go's `image/draw` library.
- `main()` (main.go:11-14): it only passes the producer to the renderer.
- `Frames.Producer.UpdateFrame`: the counter is a `nat`, so the wrap-around of Go's 64-bit `int` after about 2^63 calls is not modelled.
- The byte layout of `image.RGBA.Pix` (stride and channel order): the image is a two-dimensional grid of `RGBA` pixels.
- The return type `image.Image` (an interface) is modelled as the concrete `array2<RGBA>` the producer builds.
- A producer that returns one fixed image, and any check on texture dimensions or on the size of a supplied image: no such code is part of this model's source files.
