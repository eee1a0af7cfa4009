# Icon layout and compositing engine of back_to_blue

This project models the image engine of a zodiac-icon bot. `overlay_images` places N icons
("marks") along two opposite edges of a base photo and composites them onto it.
`remove_background` composites a matted foreground over a new background.
`get_image_paths` picks the icon files out of a directory listing.

Modules:

- `Layout` (`layout.dfy`): the integer layout engine, written as pure functions.
  - From the canvas width W, height H, the layout kind (`"top"` or `"side"`) and N it derives
    the slot count, icon size, padding and margin.
  - It builds the ordered list of N positions.
  - Python's `//` is floor division. Every divisor here is positive, and for a positive
    divisor floor division is Dafny's `/`, so the formulas are written as in the code.
- `Raster` (`raster.dfy`): RGBA buffers and the library operations on them.
  - These are a fresh transparent canvas, `paste` with clipping, `alpha_composite` and
    `convert("RGB")`.
  - The per-pixel "over" blend is a parameter `over`. Pixel properties assume only
    `ExactOnBinary(over)`: a source with alpha 0 leaves the destination unchanged, and a
    source with alpha 255 replaces it.
- `Compositor` (`compositor.dfy`): `overlay_images` itself, as methods.
  - The layout check fails before any icon is resized.
  - The odd icon is popped and re-appended.
  - The position list is built by comprehension, `append` and `extend`.
  - The loop pastes each icon into a fresh transparent layer and composites that layer over
    the accumulator. The method is proved equal to the fold `Fold`, and the properties are
    lemmas about `Fold`.
- `Background` (`background.dfy`): the composite step of `remove_background`.
- `AssetPaths` (`asset_paths.dfy`): the suffix filter of `get_image_paths` and POSIX
  `os.path.join`.
- `Wrappers` (`wrappers.dfy`): `Option` and `Result`.

Behaviour of the code that the model keeps exactly, and that differs from how the layout is
usually described:

- **The side layout is not the transpose of the top layout for odd N.** In the top layout the
  odd icon goes on the top edge (main.py:183). In the side layout it goes in the right column,
  not the left one (main.py:191). The transposition holds on a square canvas only for even N
  (`SideIsTransposedTopWhenEven`). It fails for every odd N on every non-empty square canvas
  (`SideIsNotTransposedTopWhenOdd`).
- **The odd icon duplicates a slot.** For odd N ≥ 3 the odd icon's position equals another
  icon's position: the last top slot, or the last right slot in the side layout.
- **A single icon uses slot 0.** For N = 1 the only icon is placed at x = −margin (top layout).
  So "x is the spacing times k, k in 1..N/2" holds only for N ≥ 2 (`SlotIndex`).
- **The margin is never negative.** For all non-negative W and H, the row of slots fits in the
  long side, and 0 ≤ padding ≤ margin (`RowFitsLongSide`). Positions can still fall off the
  canvas, and the paste then clips them.
- **N = 0 is a no-op.** It gives an empty position list, with no division by zero because
  `half + 1 = 1`, and the output is the base image (`RenderNoIconsIsBase`).
- **The filter is a plain, case-sensitive suffix test.** The extensions `"jpg"`, `"png"` and
  `"jpeg"` have no dot, so `leojpg` is kept and `virgo.JPG` is not.

## Model

| member | source | states |
|---|---|---|
| `Layout.ParseLayout` | main.py:159-168 | only `"top"` and `"side"` are layout kinds; any other string is refused |
| `Layout.SlotCount` | main.py:148-152 | twice the slot count is N + N mod 2, i.e. the count is N/2 rounded up |
| `Layout.ComputeMetrics` | main.py:159-166 | slot count is ceil(N/2); icon size is the smaller of 5 × (long side / ((count+1)·6)) and short side / 6, so it is at most H/6 for "top" and W/6 for "side"; padding is floor(size/5), between 0 and the size; margin + padding is half (rounded down) of the long side left free by the row |
| `Layout.Derive` | main.py:160-162 | the same size/padding/margin laws for one branch, given the long and short side |
| `Layout.RowFitsLongSide` | main.py:160-166 | the row of `count` icons and `count+1` paddings never exceeds the long side, so 0 ≤ padding ≤ margin |
| `Layout.Positions` | main.py:173-194 | the position list has exactly N entries, N = 0 included |
| `Layout.SlotIndex` | main.py:181-193 | the slot multiple of every position lies in 1..N/2 for N ≥ 2, and is 0 for N = 1 |
| `Layout.TopPositionsShape` | main.py:180-186 | top layout: the first N/2 + N mod 2 positions have y = padding, the rest y = H − size − padding; every x is W/(N/2+1) × slot − margin |
| `Layout.SidePositionsShape` | main.py:188-194 | side layout: the first N/2 positions have x = padding, the odd one and the right column x = W − size − padding; every y is H/(N/2+1) × slot − margin, the right divisor `len(images) − half + 1` being N/2 + 1 |
| `Layout.TopOddDuplicate` | main.py:181-183 | top layout, odd N ≥ 3: entry N/2 equals entry N/2 − 1 |
| `Layout.SideOddDuplicate` | main.py:189-193 | side layout, odd N ≥ 3: the odd entry equals the last right-column entry |
| `Layout.SideIsTransposedTopWhenEven` | main.py:159-194 | W = H and N even: the side list is the top list with every (x, y) swapped |
| `Layout.SideIsNotTransposedTopWhenOdd` | main.py:180-194 | W = H ≥ 1 and N odd: the side list is not the swapped top list (entry N/2 differs) |
| `Layout.TopThreeOnWideCanvas` | main.py:148-186 | W = 1200, H = 600, N = 3, top: metrics (2, 100, 20, 450) and positions [(150,20), (150,20), (150,480)] |
| `Raster.Blank` | main.py:196 | a fresh canvas of the requested size, transparent everywhere |
| `Raster.Paste` | main.py:202 | paste keeps the canvas size; pixels under the clipped footprint take the icon's pixel, alpha included, and all others are unchanged |
| `Raster.AlphaComposite` | main.py:203 | the composite keeps the size and blends the layer over the accumulator pixel by pixel |
| `Raster.ToRgb` | main.py:205 | the RGB conversion keeps the size and drops only the alpha channel |
| `Raster.PasteOntoBlankIsCopy` | main.py:196-197 | pasting the base at (0, 0) onto a fresh transparent canvas of its size gives the base itself |
| `Compositor.Zip` | main.py:199 | zip pairs icon i with position i and stops at the shorter list |
| `Compositor.ResizeAll` | main.py:171 | every icon is resized to size × size, in path order |
| `Compositor.Step` | main.py:201-203 | one iteration keeps the canvas size and blends the icon's layer pixel (icon inside the footprint, transparent outside) over the accumulator |
| `Compositor.Fold` | main.py:196-205 | the accumulator stays a valid buffer of the base's size through the loop |
| `Compositor.OverlayImages` | main.py:144-205 | an unknown layout string gives `InvalidLayout` and no image; otherwise the result is the RGB conversion of the fold of the resized icons, paired with `Positions`, over the base |
| `Compositor.PositionList` | main.py:178-194 | the comprehension, `append` and `extend` build exactly the list `Positions` describes |
| `Compositor.CompositeAll` | main.py:196-205 | the compositing loop, started from the base pasted on a transparent canvas, ends with `Fold` of all pairs |
| `Compositor.EveryIconPlaced` | main.py:173-199 | the zipped loop visits all N icons, in their original order: zip against the N positions never truncates |
| `Compositor.FoldKeepsBase` | main.py:199-203 | a pixel where every icon's layer is transparent keeps the base's pixel |
| `Compositor.FoldLastOpaqueWins` | main.py:199-203 | a pixel shows the layer of the last icon that is opaque there, when every later layer is transparent there |
| `Compositor.RenderKeepsSize` | main.py:196-205 | the overlay output has the base's width and height |
| `Compositor.RenderUncoveredKeepsBase` | main.py:196-205 | a pixel outside every clipped icon footprint keeps the base's RGB |
| `Compositor.RenderNoIconsIsBase` | main.py:173-205 | N = 0: no positions, and the output is the base unchanged |
| `Background.RemoveBackground` | main.py:127-132 | the output has the matted foreground's dimensions |
| `Background.OpaqueForegroundShowsForeground` | main.py:129-132 | a foreground opaque everywhere yields exactly its own RGB |
| `Background.TransparentForegroundShowsBackground` | main.py:129-132 | a foreground transparent everywhere yields exactly the resized background's RGB |
| `Background.BackgroundIsOneOverlayStep` | main.py:129-131 | the composite of remove_background is one overlay-loop step with the foreground at (0, 0) over the resized background |
| `AssetPaths.Join` | main.py:137 | the joined path ends with the file name |
| `AssetPaths.ImagePaths` | main.py:135-140 | at most one path per listed name |
| `AssetPaths.ImagePathsAppend` | main.py:136-140 | listing order is preserved: the filter of a concatenation is the concatenation of the filters |
| `AssetPaths.ImagePathsExact` | main.py:136-140 | exactly the names ending in an allowed extension are kept: each one's path appears in the result, and every path in the result comes from one |
| `AssetPaths.ImagePathsKeepExtension` | main.py:137-139 | every returned path ends with an allowed extension |
| `AssetPaths.DefaultExtensionsAccept` | main.py:135-139 | with the default extensions, `aries.png`, `leo.jpeg` and the dotless `leojpg` are kept |
| `AssetPaths.DefaultExtensionsRefuse` | main.py:135-139 | with the default extensions, `virgo.JPG` and `notes.txt` are dropped |

## Left out

- The Telegram handlers and bot wiring (`start`, `help_command`, `handle_image`, `logo_handle`, `change_background`, `main`): asynchronous message I/O. `logo_handle` never calls `overlay_images`, and it refers to an undefined name at main.py:90.
- The module-level token loading and directory creation (main.py:10-18): environment and filesystem side effects.
- Opening and decoding files, and `convert("RGBA")`: the model receives decoded RGBA buffers. A missing file or a decode failure is not modelled.
- The matting call `rembg.remove` (main.py:125): an opaque library. Its decoded result is an input of `RemoveBackground`.
- Resampling in `resize` (main.py:129, 171): a library internal. It is the parameter `resize`. In `remove_background` it is assumed to return the requested size (`SizedAs`), and whether a resize to size 0 fails is not modelled.
- Compositor.FoldKeepsBase: assumes only that `over` is exact for alpha 0 and 255. Pillow's rounding for partial alpha is an unseen library implementation, so the blend is the parameter `over`.
- Compositor.FoldLastOpaqueWins: the same assumption on `over`, for the same reason.
- Compositor.RenderUncoveredKeepsBase: the same assumption on `over`, for the same reason.
- Background.OpaqueForegroundShowsForeground: the same assumption on `over`, for the same reason.
- Background.TransparentForegroundShowsBackground: the same assumption on `over`, for the same reason.
- The separate `image_count` argument of `overlay_images` is taken to be the number of icon paths. The model uses `|sources|` for both.
- The `if img:` test of the loop (main.py:200) is not modelled as a filter: a Pillow image object is always truthy, so every pair is composited.
- The order of `os.listdir` and the existence checks: filesystem I/O. `ImagePaths` takes the listing as a given sequence.
- `os.path.join` is modelled for POSIX paths only; Windows drive and separator rules are not.
