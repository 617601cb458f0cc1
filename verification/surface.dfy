/** The surface and buffer requests both keyboards issue in the same way:
    the shared-memory buffer for an image, the layer-surface setup, and the
    size taken from an output. */
module Surface {
  import opened Rust
  import opened Protocol

  /** The keyboard height `get_size_from_display` hard-codes. */
  const KEYBOARD_HEIGHT: i32 := 300

  /** The layer-surface namespace the keyboard registers. */
  const NAMESPACE: string := "precure"

  const KEYBOARD_ANCHOR: bv32 := ANCHOR_BOTTOM | ANCHOR_RIGHT | ANCHOR_LEFT

  /** `get_size_from_display(index)`: the output's width and the fixed
      keyboard height; indexing past the known sizes panics. */
  function SizeFromDisplay(wlSize: seq<(i32, i32)>, index: nat): (r: Outcome<(i32, i32)>)
    ensures r.Panicked? <==> |wlSize| <= index
    ensures r.Panicked? ==> r.panic == IndexOutOfBounds
    ensures r.Ok? ==> r.value.0 == wlSize[index].0 && r.value.1 == KEYBOARD_HEIGHT
  {
    if index < |wlSize| then Ok((wlSize[index].0, KEYBOARD_HEIGHT))
    else Panicked(IndexOutOfBounds)
  }

  /** The i32 products `set_buffer` computes for a buffer of this size:
      width*height, the pool size width*height*4 and the stride width*4. */
  predicate SizesFit(width: int, height: int) {
    InI32(width * height) && InI32(width * height * 4) && InI32(width * 4)
  }

  /** The requests of `set_buffer` after drawing: a pool over the file that
      holds `data`, and a buffer over that pool. */
  function ShmBuffer(data: seq<byte>, width: i32, height: i32): (r: Outcome<(seq<Request>, BufferDesc)>)
    ensures r.Ok? <==> SizesFit(width, height)
    ensures r.Panicked? ==> r.panic == ArithmeticOverflow
    ensures r.Ok? ==> r.value.1 == BufferDesc(0, width, height, width * 4, FORMAT_ARGB8888)
    ensures r.Ok? ==> r.value.0 == [CreatePool(data, width * height * 4), CreateBuffer(r.value.1)]
    ensures r.Ok? ==> r.value.1.offset + r.value.1.stride * r.value.1.height == r.value.0[0].poolSize
    ensures r.Ok? ==> NoModifiers(r.value.0)
  {
    var area :- CheckedMul(width, height);
    var poolSize :- CheckedMul(area, 4);
    var stride :- CheckedMul(width, 4);
    var desc := BufferDesc(0, width, height, stride, FORMAT_ARGB8888);
    assert stride * height == poolSize by {
      assert stride * height == width * 4 * height == width * height * 4;
    }
    Ok(([CreatePool(data, poolSize), CreateBuffer(desc)], desc))
  }

  /** The requests of `init_layer_surface`: an overlay layer surface on
      `output` anchored bottom, right and left, taking no keyboard focus,
      reserving `height` and sized (0, height), then a commit. */
  function LayerSurfaceRequests(output: Option<nat>, height: i32): (reqs: seq<Request>)
    ensures |reqs| == 6
    ensures reqs[0] == GetLayerSurface(output, LAYER_OVERLAY, NAMESPACE)
    ensures SetAnchor(KEYBOARD_ANCHOR) in reqs && KEYBOARD_ANCHOR & ANCHOR_TOP == 0
    ensures SetKeyboardInteractivity(INTERACTIVITY_NONE) in reqs
    ensures LastZone(reqs) == Some(height)
    ensures LastSize(reqs) == Some((0, I32AsU32(height)))
    ensures reqs[|reqs| - 1] == Commit
    ensures NoModifiers(reqs)
  {
    var reqs :=
      [ GetLayerSurface(output, LAYER_OVERLAY, NAMESPACE),
        SetAnchor(KEYBOARD_ANCHOR),
        SetKeyboardInteractivity(INTERACTIVITY_NONE),
        SetExclusiveZone(height),
        SetSize(0, I32AsU32(height)),
        Commit ];
    LastOfAt(reqs, 3, ZoneOf);
    LastOfAt(reqs, 4, SizeOf);
    reqs
  }

  /** The size and exclusive-zone requests that give the layer surface
      `height`, then a commit: what `min_keyboard` sends. */
  function ResizeRequests(height: i32): (reqs: seq<Request>)
    ensures |reqs| == 3 && reqs[0].SetSize? && reqs[1].SetExclusiveZone?
    ensures LastZone(reqs) == Some(height)
    ensures LastSize(reqs) == Some((0, I32AsU32(height)))
    ensures reqs[|reqs| - 1] == Commit
    ensures NoModifiers(reqs)
  {
    var reqs := [SetSize(0, I32AsU32(height)), SetExclusiveZone(height), Commit];
    LastOfAt(reqs, 1, ZoneOf);
    LastOfAt(reqs, 0, SizeOf);
    reqs
  }
}
