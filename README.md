# Renderer of the RayTracing project, noise-fill stage

This project models the `Renderer` of the RayTracing application: a small
state machine that owns a 32-bit RGBA pixel buffer sized to an output image.
`OnResize(width, height)` makes the image and the buffer match a requested
size, doing nothing when the image already has that size. `Render()` fills
every pixel, in index order, with a random value whose alpha byte is forced
to `0xff`, then publishes the buffer to the image. `GetFinalImage()` hands
out the shared image handle.

The model is imperative, like the source:

- `RayTracing.Renderer` is a class with the two fields of the C++ class:
  `finalImage: Image?` (the `shared_ptr`, `null` when empty) and
  `imageData: array?<bv32>` (the raw buffer, `null` before the first resize).
  Its invariant `Valid()` says both exist together and the buffer holds
  `PixelCount(width, height)` pixels, the image's pixel count computed in
  `uint32_t` as the source computes it.
- `Walnut.Image` stands for the host framework's image. Only its width,
  height and last uploaded pixels (`published`) are modelled.
- `Pixels` holds the value-level specification: the 32-bit pixel count,
  forcing a pixel opaque (`ForceAlpha`), and the frame a render produces
  from a sequence of random draws (`Frame`).
- The random source `Walnut::Random::UInt()` becomes the parameter
  `draws: seq<bv32>` of `Render`, one value per pixel, in the order the loop
  consumes them.

## Model

| member | source | states |
|---|---|---|
| `Pixels.PixelCount` | RayTracing/src/Renderer.cpp:19 | `width * height` in `uint32_t` is below 2^32, equals the true product exactly when the product fits in 32 bits, and is 0 for a zero width or height |
| `Pixels.ForceAlpha` | RayTracing/src/Renderer.cpp:27-28 | the pixel written is fully opaque (alpha byte `0xff`) and keeps the three colour bytes of the random draw |
| `Pixels.Frame` | RayTracing/src/Renderer.cpp:25-29 | the frame has one pixel per draw, pixel `k` is draw `k` with alpha forced, and every pixel is opaque |
| `Pixels.FrameIgnoresDrawnAlpha` | RayTracing/src/Renderer.cpp:27-28 | the alpha byte of a random draw never reaches the image: draws that agree on their colour bytes give the same frame |
| `RayTracing.Renderer.constructor` | RayTracing/src/Renderer.h:9-17 | a new renderer has no image and no pixel buffer, and satisfies the invariant |
| `RayTracing.Renderer.GetFinalImage` | RayTracing/src/Renderer.h:14 | returns the renderer's own image handle (absent before the first resize), not a copy, and changes no state |
| `RayTracing.Renderer.OnResize` | RayTracing/src/Renderer.cpp:4-20 | afterwards the image exists with the requested width and height and the buffer holds `width*height` pixels (in `uint32_t`); a request for the current size changes nothing (same image, same buffer, same contents, same published pixels); otherwise the existing image is resized in place, the first call creates a fresh image, and the buffer is a freshly allocated one |
| `RayTracing.Renderer.Render` | RayTracing/src/Renderer.cpp:22-33 | requires a prior resize; writes every buffer index, and only those, so that the buffer equals the frame of the draws (each pixel the draw with alpha forced, all opaque); publishes exactly the buffer contents and leaves the image dimensions unchanged |
| `RayTracing.ResizeTwice` | RayTracing/src/Renderer.cpp:4-20 | the state between two resizes to the same size is what one resize promises (requested dimensions, a buffer of `width*height` pixels in `uint32_t`, the same image when one existed, a fresh one otherwise, no change when the size was already right, a fresh buffer otherwise), and the second resize leaves that state exactly as it is |
| `Walnut.Image.constructor` | RayTracing/src/Renderer.cpp:15 | the created image has the requested width and height |
| `Walnut.Image.Resize` | RayTracing/src/Renderer.cpp:11 | the same image object takes the requested width and height |
| `Walnut.Image.SetData` | RayTracing/src/Renderer.cpp:32 | the image's published pixels become the given buffer; its dimensions do not change |

## Left out

- GPU texture creation, resizing and upload inside `Walnut::Image`: the image is reduced to its width, height and last published pixels. After `Resize` or creation nothing is said about the image's pixels.
- `Walnut::Random::UInt()`: a foreign random source, replaced by the `draws` parameter of `Render`.
- `delete[]`/`new[]` and `shared_ptr` reference counting and lifetime: reallocation is modelled as allocating a fresh array, and the shared handle as an object reference. Other holders of the handle are assumed not to resize it.
- The contents of a freshly allocated buffer, which are uninitialised in C++; the model says nothing about them.
- `RayTracing.Renderer.OnResize`: when `width * height` does not fit in 32 bits, the buffer length and the render loop bound both wrap in `uint32_t` (the source does not check this), so the buffer holds fewer than `width * height` pixels. The model keeps this wrapped count, and `Render` then publishes exactly that shorter buffer (`Walnut.Image.SetData` records the pixels it is given). An upload that reads `width * height` pixels, as sized from the image's own dimensions, is not captured.
- Calling `Render` before any `OnResize` dereferences an empty `shared_ptr` in the source; the model makes a prior resize a precondition.
- Ray–sphere intersection, shading, camera rays and colour clamping and packing are not in `Renderer.cpp`/`Renderer.h` at this stage and are not modelled.
- Threading and frame boundaries: the code is single-threaded.
