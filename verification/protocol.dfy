/** The Wayland requests the keyboard issues, as values.

    Every request the client sends, whatever object it is sent to, is
    appended to one ordered log.  Numeric arguments carry the values the
    protocol XML assigns to its enums (wayland.xml, wlr-layer-shell-unstable-v1,
    virtual-keyboard-unstable-v1). */
module Protocol {
  import opened Rust

  /** wl_keyboard.keymap_format.xkb_v1 */
  const KEYMAP_FORMAT_XKB_V1: u32 := 1
  /** wl_keyboard.key_state */
  const KEY_RELEASED: u32 := 0
  const KEY_PRESSED: u32 := 1
  /** wl_shm.format.argb8888 */
  const FORMAT_ARGB8888: u32 := 0
  /** zwlr_layer_shell_v1.layer.overlay */
  const LAYER_OVERLAY: u32 := 3
  /** zwlr_layer_surface_v1.anchor bits */
  const ANCHOR_TOP: bv32 := 1
  const ANCHOR_BOTTOM: bv32 := 2
  const ANCHOR_LEFT: bv32 := 4
  const ANCHOR_RIGHT: bv32 := 8
  /** zwlr_layer_surface_v1.keyboard_interactivity.none */
  const INTERACTIVITY_NONE: u32 := 0

  /** The parameters of wl_shm_pool.create_buffer; a created wl_buffer is
      identified by them. */
  datatype BufferDesc = BufferDesc(offset: i32, width: i32, height: i32, stride: i32, format: u32)

  datatype Request =
      // zwp_virtual_keyboard_manager_v1 / zwp_virtual_keyboard_v1
    | CreateVirtualKeyboard
    | Keymap(format: u32, contents: seq<byte>, keymapSize: u32)
    | Key(time: u32, key: u32, state: u32)
    | Modifiers(depressed: u32, latched: u32, locked: u32, group: u32)
      // wl_shm / wl_shm_pool; `data` is what the passed file holds
    | CreatePool(data: seq<byte>, poolSize: i32)
    | CreateBuffer(buffer: BufferDesc)
      // wl_surface
    | DamageBuffer(x: i32, y: i32, width: i32, height: i32)
    | Frame
    | Attach(attached: Option<BufferDesc>, dx: i32, dy: i32)
    | Commit
      // zwlr_layer_shell_v1 / zwlr_layer_surface_v1; `output` indexes the bound outputs
    | GetLayerSurface(output: Option<nat>, layer: u32, namespace: string)
    | SetAnchor(anchor: bv32)
    | SetKeyboardInteractivity(interactivity: u32)
    | SetExclusiveZone(zone: i32)
    | SetSize(sizeWidth: u32, sizeHeight: u32)

  /** The most recent value `pick` reads off a request in `log`. */
  function LastOf<T>(log: seq<Request>, pick: Request -> Option<T>): Option<T>
    decreases |log|
  {
    if |log| == 0 then None
    else if pick(log[|log| - 1]).Some? then pick(log[|log| - 1])
    else LastOf(log[..|log| - 1], pick)
  }

  /** `LastOf` is nothing exactly when no request carries a value, and
      otherwise the value of a request after which none carries one. */
  lemma {:induction false} LastOfIsLast<T>(log: seq<Request>, pick: Request -> Option<T>)
    ensures LastOf(log, pick).None? <==> forall i :: 0 <= i < |log| ==> pick(log[i]).None?
    ensures LastOf(log, pick).Some? ==>
              exists i :: 0 <= i < |log| && pick(log[i]) == LastOf(log, pick) &&
                          forall j :: i < j < |log| ==> pick(log[j]).None?
    decreases |log|
  {
    if |log| != 0 {
      var n := |log| - 1;
      if pick(log[n]).Some? {
        assert pick(log[n]) == LastOf(log, pick);
      } else {
        LastOfIsLast(log[..n], pick);
        assert forall i :: 0 <= i < n ==> log[..n][i] == log[i];
        if LastOf(log, pick).Some? {
          var i :| 0 <= i < n && pick(log[..n][i]) == LastOf(log, pick) &&
                   forall j :: i < j < n ==> pick(log[..n][j]).None?;
          assert forall j :: i < j < |log| ==> pick(log[j]).None?;
        }
      }
    }
  }

  /** Appending requests only changes what is last if they carry a value. */
  lemma {:induction false} LastOfAppend<T>(a: seq<Request>, b: seq<Request>, pick: Request -> Option<T>)
    ensures LastOf(a + b, pick) == if LastOf(b, pick).Some? then LastOf(b, pick) else LastOf(a, pick)
    decreases |b|
  {
    if |b| == 0 {
      assert a + b == a;
    } else {
      var n := |b| - 1;
      assert (a + b)[..|a + b| - 1] == a + b[..n];
      assert (a + b)[|a + b| - 1] == b[n];
      LastOfAppend(a, b[..n], pick);
    }
  }

  /** The value at the last position `pick` reads one from is the last value. */
  lemma {:induction false} LastOfAt<T>(log: seq<Request>, i: nat, pick: Request -> Option<T>)
    requires i < |log| && pick(log[i]).Some?
    requires forall j :: i < j < |log| ==> pick(log[j]).None?
    ensures LastOf(log, pick) == pick(log[i])
    decreases |log|
  {
    var n := |log| - 1;
    if i < n {
      assert forall j :: i < j < n ==> log[..n][j] == log[j];
      LastOfAt(log[..n], i, pick);
    }
  }

  predicate NoModifiers(reqs: seq<Request>) {
    forall i :: 0 <= i < |reqs| ==> !reqs[i].Modifiers?
  }

  /** Requests that neither resize the surface nor set its exclusive zone. */
  predicate NoResize(reqs: seq<Request>) {
    forall i :: 0 <= i < |reqs| ==> !reqs[i].SetSize? && !reqs[i].SetExclusiveZone?
  }

  /** Requests that do not resize leave the last zone and size sent as they were. */
  lemma AppendNoResize(a: seq<Request>, b: seq<Request>)
    requires NoResize(b)
    ensures LastZone(a + b) == LastZone(a) && LastSize(a + b) == LastSize(a)
  {
    LastOfAppend(a, b, ZoneOf);
    LastOfAppend(a, b, SizeOf);
    assert forall i :: 0 <= i < |b| ==> ZoneOf(b[i]).None? && SizeOf(b[i]).None?;
    LastOfIsLast(b, ZoneOf);
    LastOfIsLast(b, SizeOf);
  }

  /** Two runs of requests without modifiers make one. */
  lemma ConcatNoModifiers(a: seq<Request>, b: seq<Request>)
    requires NoModifiers(a) && NoModifiers(b)
    ensures NoModifiers(a + b)
  {
  }

  /** Requests that carry no modifiers leave the last modifiers sent as they were. */
  lemma AppendNoModifiers(a: seq<Request>, b: seq<Request>)
    requires NoModifiers(b)
    ensures LastModifiers(a + b) == LastModifiers(a)
  {
    LastOfAppend(a, b, ModifiersOf);
    assert forall i :: 0 <= i < |b| ==> ModifiersOf(b[i]).None?;
    LastOfIsLast(b, ModifiersOf);
  }

  function ZoneOf(req: Request): Option<i32> {
    if req.SetExclusiveZone? then Some(req.zone) else None
  }

  function SizeOf(req: Request): Option<(u32, u32)> {
    if req.SetSize? then Some((req.sizeWidth, req.sizeHeight)) else None
  }

  function ModifiersOf(req: Request): Option<u32> {
    if req.Modifiers? then Some(req.depressed) else None
  }

  /** The exclusive zone the layer surface was last given. */
  function LastZone(log: seq<Request>): Option<i32> {
    LastOf(log, ZoneOf)
  }

  /** The size the layer surface was last given. */
  function LastSize(log: seq<Request>): Option<(u32, u32)> {
    LastOf(log, SizeOf)
  }

  /** The depressed-modifier bits the virtual keyboard was last sent. */
  function LastModifiers(log: seq<Request>): Option<u32> {
    LastOf(log, ModifiersOf)
  }
}
