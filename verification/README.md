# An on-screen Wayland keyboard, modelled in Dafny

This project models the decision logic of two Wayland on-screen keyboard
clients: `starcolorkeyboard` and `carioex`. Both clients are wlr-layer-shell
overlays that inject keys through zwp_virtual_keyboard_v1. The model covers:

- **Sticky modifiers** (starcolorkeyboard). `KeyModifierType` is a bitflags
  type. The `From<u32>` table maps a keycode to a modifier. `key_press` and
  `key_release` send key events. A release XORs the key's modifier into
  `keymode`, and only when that changes the value does it send a
  `modifiers` request and report `true`.
- **Frame production** (both clients). `draw` turns RGBA pixels into bytes
  and rewrites pure white to translucent grey. `set_buffer` and `update_map`
  create the shared-memory pool and buffer and issue the surface requests.
  `get_keymap_as_file` frames the keymap as a NUL-terminated blob. `min_keyboard`
  and `init_layer_surface` set the layer surface's size and exclusive zone.
  The start-up block of `main` chains these together.
- **Hit test** (carioex `PangoUi`). `set_size` and `get_size` store the
  surface size. `get_key` maps a position to a keycode: nothing left of the
  grid, the layout's keycode inside the grid, and keycode 11 (minimize) in
  the middle third of the right-hand column.

## How it is modelled

- **Requests as a log.** Each client's `State` is an immutable datatype.
  Every Wayland request the code issues is appended to one log, `sent`, as a
  `Protocol.Request` value. Contracts can therefore say exactly what is sent
  and in what order. `LastOf` reads the current exclusive zone, size or
  modifiers off the log.
- **Panics are results.** An operation that can panic returns
  `Rust.Outcome` (`Ok` or `Panicked`). This covers i32 overflow in the debug
  profile, division by zero, indexing past `wl_size` or `wl_output`, and an
  interior NUL in the keymap. Rust `/` is `TruncDiv`, which rounds toward
  zero.
- **Handles are preconditions.** The `Option` handles the core creates
  itself are booleans in the state: the virtual keyboard and the layer
  surface. Their `unwrap`s become preconditions. The globals bound by the
  dispatch module are taken as present: shm, seat, base surface and the
  managers.
- **Modifiers are a flag set.** A `KeyModifierType` value is a set of flags
  (`Modifiers.Mods`). `Bits` gives its u32, and `BitsDetermineFlags` shows
  that the u32 also fixes the set. The `^` operator is symmetric difference
  (`Xor`), which is what bitflags defines it as.
- **Code outside the modelled files is a parameter.** These come in as
  arguments:
  - the keycode constants of `otherkeys` (`KeyCodes`)
  - `EXCULDE_ZONE_TOP` (`zoneTop`). `min_keyboard` casts it both `as u32`
    and `as i32` (starcolorkeyboard/src/main.rs:199-200), so its type is not
    known here. `zoneTop` is an i32, sent unchanged as the zone and through
    `as u32` as the size. This matches the code when the constant's value
    fits in an i32.
  - the grid lookup `find_keycode_from_smallkeyboard` (`KeycodeLookup`)
  - the rendered image (`Renderer`, or a pixel sequence for carioex)
  - the keymap text xkbcommon produces
  - the environment
- **carioex keeps one file.** carioex writes every drawing into the one
  temporary file that `State::init` creates, and never truncates or rewinds
  it. The model therefore appends (`Carioex.DrawInto`).

## Behaviour worth noting

- `update_map` damages the surface before it creates the new pool and
  buffer. Frame, attach and commit follow, in that order.
- `draw` writes each pixel as r, g, b, a, the image's own byte order. It
  does not convert to ARGB8888's byte layout, although the buffer is
  declared as ARGB8888.
- The modifiers request puts the toggled `keymode` bits in its
  *depressed* argument. The latched, locked and group arguments are all 0.
  A modifier therefore stays held until its key is released again.
- Restoring after a minimize re-sends the ui height. This equals the height
  `init_layer_surface` used because start-up sets both from the same
  `get_size_from_display(0)`.

## Model

| member | source | states |
|---|---|---|
| Rust.I32AsU32 | starcolorkeyboard/src/main.rs:231 | `height as u32` keeps non-negative values and is congruent to the i32 modulo 2^32 |
| Rust.UsizeAsU32 | starcolorkeyboard/src/main.rs:69 | `value as u32` keeps the value below 2^32 and is always congruent to it modulo 2^32 |
| Rust.TruncDiv | carioex/src/pangoui.rs:42 | Rust `/` rounds toward zero: the quotient's magnitude is the largest k with \|b\|·k ≤ \|a\|, and a non-zero quotient is negative exactly when the operand signs differ; on non-negative operands it equals Euclidean division |
| Rust.CheckedSub | carioex/src/pangoui.rs:43-44 | i32 `-` in a debug build: the exact difference when it fits in i32, otherwise an overflow panic |
| Rust.CheckedMul | carioex/src/pangoui.rs:43 | i32 `*` in a debug build: the exact product when it fits in i32, otherwise an overflow panic |
| Rust.CheckedDiv | carioex/src/pangoui.rs:49 | i32 `/`: panics on a zero divisor and on `i32::MIN / -1`, and otherwise gives the quotient rounded toward zero |
| Modifiers.Bits | starcolorkeyboard/src/main.rs:282 | `.bits()` is 0 exactly for NoMod and is at least the bit of every flag the value holds |
| Modifiers.Xor | starcolorkeyboard/src/main.rs:278 | `^` holds a flag exactly when one of the two operands holds it |
| Modifiers.BitsDetermineFlags | starcolorkeyboard/src/main.rs:43-51 | two modifier values with the same u32 bits hold the same flags |
| Modifiers.XorFlag | starcolorkeyboard/src/main.rs:278 | `^` with one flag flips that flag and leaves every other flag alone; the u32 changes by exactly that flag's bit, up when it was clear and down when it was set |
| Modifiers.XorTwice | starcolorkeyboard/src/main.rs:278 | `^` with the same value twice gives back the original value |
| Modifiers.XorUnchanged | starcolorkeyboard/src/main.rs:278-279 | `^` leaves the value equal to before exactly when it XORs in NoMod |
| Modifiers.FromKeycode | starcolorkeyboard/src/main.rs:54-65 | the keycode table yields NoMod exactly for keys no arm lists, otherwise a single flag, and never AltGr |
| Modifiers.FromUsize | starcolorkeyboard/src/main.rs:67-72 | the usize conversion agrees with the u32 table for every value below 2^32 |
| Modifiers.FromUsizeAliases | starcolorkeyboard/src/main.rs:67-72 | two usize keys that differ by 2^32 select the same modifier |
| Modifiers.ModifierTable | starcolorkeyboard/src/main.rs:56-61 | with distinct keycode constants: caps lock gives CapsLock, either shift gives Shift, menu gives Super, either ctrl gives Ctrl, either alt gives Alt |
| Modifiers.FirstMatchEarliest | starcolorkeyboard/src/main.rs:56-63 | a match over arms yields the flag of the earliest arm listing the key, and NoMod exactly when no arm lists it |
| Modifiers.KeyFlagIsFirstMatch | starcolorkeyboard/src/main.rs:56-63 | the keycode table is first-match over its five arms in source order |
| Render.DrawBytes | starcolorkeyboard/src/main.rs:306-317 | `draw` writes exactly 4 bytes per pixel |
| Render.DrawnChannel | starcolorkeyboard/src/main.rs:306-315 | byte 4k+c of the output is channel c of pixel k after the white remap |
| Render.DecodeDraw | starcolorkeyboard/src/main.rs:303-318 | the bytes read back four at a time give exactly the image with every pixel remapped, in order |
| Render.DrawPixel | starcolorkeyboard/src/main.rs:307-315 | a pixel with r = g = b = 255 and any alpha becomes 50, 50, 50, 50; every other pixel is written unchanged as r, g, b, a |
| Render.NoWhiteDrawn | starcolorkeyboard/src/main.rs:309-314 | no white pixel survives in the output |
| Render.DrawLoop | carioex/src/main.rs:235-251 | the pixel loop appends exactly the remapped bytes of the image after what the file holds |
| Keymap.KeymapDir | carioex/src/main.rs:202-204 | the keymap file goes to XDG_RUNTIME_DIR when it is set, and to the system temp directory otherwise |
| Keymap.GetKeymapAsFile | carioex/src/main.rs:195-209 | panics exactly when the text has an interior NUL; otherwise the blob is the text plus one 0 byte, a C reader gets the text back, and the reported size is the blob length whenever that fits in a u32 |
| Keymap.ReadBack | carioex/src/main.rs:200-201 | a C reader recovers text without NUL from the text followed by a NUL |
| Keymap.UploadKeymap | starcolorkeyboard/src/main.rs:253-264 | creates the virtual keyboard, then sends a keymap in the xkb_v1 format from which a C reader recovers the text, with size \|text\| + 1, the blob length, whenever that fits in a u32; fails exactly on an interior NUL |
| Surface.SizeFromDisplay | carioex/src/main.rs:168-170 | the output's width and height 300, panicking exactly when the index is past the known sizes |
| Surface.ShmBuffer | starcolorkeyboard/src/main.rs:179-193 | a pool of width*height*4 bytes and an ARGB8888 buffer at offset 0 with stride width*4, so offset + stride*height is the pool size; panics exactly when one of the i32 products overflows |
| Surface.LayerSurfaceRequests | carioex/src/main.rs:178-190 | an overlay surface named "precure" on the given output, anchored without the top edge and without keyboard focus, whose zone and size end as height and (0, height), then a commit; no modifiers |
| Surface.ResizeRequests | starcolorkeyboard/src/main.rs:198-207 | exactly three requests: set_size, set_exclusive_zone, then commit; the size and zone end as (0, height) and height; no modifiers |
| PangoUi.SetSize | carioex/src/pangoui.rs:31-38 | `get_size` after `set_size(size)` returns `size` |
| PangoUi.GetSize | carioex/src/pangoui.rs:36-38 | the width and height returned rebuild exactly the stored `PangoUi` |
| PangoUi.GetKey | carioex/src/pangoui.rs:40-56 | left of x_1 is None and x_1..x_4 is the layout's keycode; right of x_4 (and not left of x_1) a zero step panics, otherwise the answer is 11 exactly when the truncating `pos_y / step` is 1 and None else; a None answer lies outside the grid; it panics only when the i32 geometry or `i32::MIN / -1` overflows, or the step is zero; `RightColumnOverflow` shows the `i32::MIN / -1` case does panic |
| PangoUi.RightColumnOverflow | carioex/src/pangoui.rs:42-49 | at a step of -1 (height -3 to -5), a position right of both grid edges at row `i32::MIN` panics with overflow in `pos_y / step` |
| PangoUi.GetKeyByRegion | carioex/src/pangoui.rs:40-56 | for height at least 3 and no overflow, the hit test never panics and answers by region: None left of the grid, the layout's keycode in it, 11 in the middle third of the right column, None elsewhere in that column |
| PangoUi.MiddleThird | carioex/src/pangoui.rs:49 | `pos_y / step == 1`, with truncating division, holds exactly for step <= pos_y < 2*step, negative pos_y included |
| PangoUi.SaneSizesFit | carioex/src/pangoui.rs:42-44 | widths and heights up to 2^30 never overflow the geometry |
| PangoUi.FlatSurface | carioex/src/pangoui.rs:42-49 | below height 3 the grid is the single column x = width, and anything right of it divides by zero |
| PangoUi.WorkedExample | carioex/src/pangoui.rs:42-55 | at 480x300: (500,150) gives 11, (500,50) and (50,150) give None, and (200,150) asks the layout with x_1 = 80 and step 100 |
| StarColorKeyboard.Init | starcolorkeyboard/src/main.rs:141-176 | starts with NoMod latched, not minimized, default ui, no virtual keyboard, layer surface or buffer, nothing sent, the registry's sizes and outputs, and the compositor-agreement invariant |
| StarColorKeyboard.KeyPress | starcolorkeyboard/src/main.rs:266-270 | appends one key-down at time 1 and changes nothing else; keeps the invariant and a configured layer surface configured |
| StarColorKeyboard.KeyRelease | starcolorkeyboard/src/main.rs:272-285 | the new keymode is the old one XOR the key's modifier; reports true exactly when it changed; appends the key-up, followed by `Modifiers(bits, 0, 0, 0)` only on a change; keeps the last modifiers sent equal to the latched bits, and keeps a configured layer surface configured |
| StarColorKeyboard.ReleaseReportsModifier | starcolorkeyboard/src/main.rs:276-284 | a release reports a change exactly for the keys the table lists |
| StarColorKeyboard.ReleaseNonModifier | starcolorkeyboard/src/main.rs:275-281 | releasing any other key appends only the key-up, keeps keymode and the compositor's modifiers, and returns false |
| StarColorKeyboard.ReleaseTogglesFlag | starcolorkeyboard/src/main.rs:276-282 | a modifier key's release flips its own flag, leaves every other flag, and moves the sent bits by that flag's bit |
| StarColorKeyboard.ReleaseTwice | starcolorkeyboard/src/main.rs:276-284 | releasing one modifier key twice returns true both times and restores keymode; the log gains key-up, the toggled bits, key-up, the original bits |
| StarColorKeyboard.Draw | starcolorkeyboard/src/main.rs:303-318 | a fresh file receives 4 bytes per pixel of the image for the modifier value, which read back as the remapped image |
| StarColorKeyboard.SetBuffer | starcolorkeyboard/src/main.rs:178-194 | succeeds exactly when width*height*4 and width*4 fit in i32; the pool holds the drawing for the given modifiers; the buffer is (0, w, h, 4w, ARGB8888); for a w*h image the pool size equals the file length |
| StarColorKeyboard.UpdateMap | starcolorkeyboard/src/main.rs:287-301 | damage (0, 0, w, h), then a pool with the drawing for the current keymode and its buffer, then frame, attach of that buffer, and commit last; keeps the invariant and a configured layer surface configured |
| StarColorKeyboard.ReleaseThenRedraw | starcolorkeyboard/src/main.rs:273-301 | after a release that reports a change, the redraw's own pool, the request right after its damage, holds the image for the toggled modifiers and has size w*h*4 |
| StarColorKeyboard.MinKeyboard | starcolorkeyboard/src/main.rs:196-208 | minimized, the size and zone become EXCULDE_ZONE_TOP; otherwise they become the ui height; then a commit |
| StarColorKeyboard.GetSizeFromDisplay | starcolorkeyboard/src/main.rs:210-212 | (wl_size[i].0, 300), panicking exactly when i is past the known sizes |
| StarColorKeyboard.InitLayerSurface | starcolorkeyboard/src/main.rs:214-235 | the layer-surface requests for the size's height, after which zone and size are height and (0, height) |
| StarColorKeyboard.InitVirtualKeyboard | starcolorkeyboard/src/main.rs:253-264 | fails exactly on an interior NUL; otherwise creates the device and uploads the keymap, and nothing else in the state changes; keeps the invariant |
| StarColorKeyboard.Startup | starcolorkeyboard/src/main.rs:101-110 | without layer shell and wm_base nothing happens; otherwise it succeeds exactly when the keymap has no NUL, an output size and a wl_output exist, and the i32 products for width × 300 fit, and it panics with no output size; on success the log gains exactly the keymap upload, a pool holding the NoMod drawing with its (0, w, 300, 4w, ARGB8888) buffer, and the layer-surface requests, and only ui, handles and buffer change otherwise, leaving the layer surface configured for minimize and restore |
| StarColorKeyboard.MinimizeThenRestore | starcolorkeyboard/src/main.rs:196-235 | on a configured layer surface (zone and size equal to the ui height, as `init_layer_surface` leaves it), minimizing sets zone and size to EXCULDE_ZONE_TOP, and restoring gives back exactly the zone and size it had; start-up, key presses, releases and redraws all leave the surface configured |
| Carioex.Init | carioex/src/main.rs:115-148 | an empty temporary file, the default ui, no handles and nothing sent, with the registry's sizes and outputs |
| Carioex.DrawInto | carioex/src/main.rs:235-251 | `draw` adds 4 bytes per pixel after the file's contents and keeps what was there |
| Carioex.DrawIntoAppendsImage | carioex/src/main.rs:235-251 | the bytes a `draw` adds read back as the image with white remapped |
| Carioex.SetBuffer | carioex/src/main.rs:150-166 | succeeds exactly when the i32 geometry fits; draws into the file, then a pool of w*h*4 bytes over the whole file and a buffer (0, w, h, 4w, ARGB8888); sends no modifiers |
| Carioex.FirstBufferShowsImage | carioex/src/main.rs:150-166 | on the file `State::init` made, the pool reads back as the NoMod image, and for a w*h image its size equals the file length |
| Carioex.SecondBufferShowsFirstImage | carioex/src/main.rs:150-166 | a second `set_buffer` would map the first drawing, because the file is never rewound |
| Carioex.KeyPress | carioex/src/main.rs:224-228 | appends exactly one key-down at time 1 and changes nothing else |
| Carioex.KeyRelease | carioex/src/main.rs:230-233 | appends exactly one key-up at time 1 and changes nothing else |
| Carioex.TapSendsKeyPair | carioex/src/main.rs:224-233 | a press and a release send exactly the key-down and key-up, and never modifiers |
| Carioex.GetSizeFromDisplay | carioex/src/main.rs:168-170 | (wl_size[i].0, 300), panicking exactly when i is past the known sizes |
| Carioex.InitLayerSurface | carioex/src/main.rs:172-193 | the layer-surface requests for the size's height, after which zone and size are height and (0, height) |
| Carioex.InitVirtualKeyboard | carioex/src/main.rs:211-222 | fails exactly on an interior NUL; otherwise creates the device and uploads the keymap, and nothing else in the state changes |
| Carioex.Startup | carioex/src/main.rs:77-86 | without layer shell and wm_base nothing happens; otherwise it succeeds exactly when the keymap has no NUL, an output size and a wl_output exist, and the i32 products for width × 300 fit, and it panics with no output size; on success the file gains exactly the one drawing, the log gains exactly the keymap upload, a pool over the whole file with its (0, w, 300, 4w, ARGB8888) buffer, and the layer-surface requests, none of them a modifiers request, and only ui, file, handles and buffer change otherwise |

## Left out

- **Connection, registry and dispatch.** The Wayland connection, the
  discovery loops of `main` and the dispatch module are event-loop I/O.
  Only the requests the core issues are modelled.
- **`State::init`'s xkb keymap.** The keymap is compiled by xkbcommon, a
  foreign library. Its serialised text is an input.
- **Files and descriptors.** Temporary-file creation, write errors and
  file-descriptor passing are I/O. A pool or keymap request carries the
  bytes the file holds, and a failing write (an `unwrap` on I/O) is not
  modelled.
- **Rendering.** `PangoUi::ui` draws with cairo, encodes and decodes a PNG
  and calls the layout module, all foreign code. The image it returns is a
  parameter. carioex/src/main.rs:239 passes a modifier value to a `ui` that
  takes none; carioex's image is a single parameter.
- **Modules not modelled.** These are not part of this model:
  - starcolorkeyboard's `pangoui` and its layouts. Its `set_size` and
    `get_size` are taken to be the carioex ones.
  - `otherkeys`
  - `keyboardlayouts`
  - `find_keycode_from_smallkeyboard`
  - `EXCULDE_ZONE_TOP`

  The values of the keycode constants are unknown. `ModifierTable` assumes
  they are pairwise distinct; every other member holds for any values.
- **`get_key_point` and `get_key_touch`.** These pass the stored f64
  mouse or touch position unchanged to `get_key`
  (starcolorkeyboard/src/main.rs:320-326, carioex/src/main.rs:253-259).
  `get_key` converts it with `as i32` (carioex/src/pangoui.rs:41). That cast
  rounds toward zero and saturates: NaN becomes 0, and values out of range
  become `i32::MIN` or `i32::MAX`. Floating point is out of scope, so
  `PangoUi.GetKey` takes the position after that conversion.
- **Release-build arithmetic.** With overflow checks off (the release
  profile), the i32 products `width * height * 4` and `width * 4`
  (starcolorkeyboard/src/main.rs:183,188, carioex/src/main.rs:155,160) and
  the `*` and `-` in `get_key` wrap silently. The `/` in `get_key` still
  panics on a zero divisor and on `i32::MIN / -1`. The model follows the
  debug build, where all of them panic.
- **Optional handles.** Unwrapping a missing handle is a precondition, not
  a modelled panic.
- **Event time.** The event time is the constant 1 the code passes.
