/** The `State` of the starcolorkeyboard client: sticky modifiers, the
    redraw path and minimizing, with every request it sends logged in order. */
module StarColorKeyboard {
  import opened Rust
  import opened Protocol
  import opened Modifiers
  import opened Render
  import opened Keymap
  import opened PangoUi
  import opened Surface

  /** The parts of `State` the core reads and writes.  `outputs` counts the
      bound wl_output objects; `virtualKeyboard` and `layerSurface` say
      whether those handles exist yet. */
  datatype State = State(
    wlSize: seq<(i32, i32)>,
    outputs: nat,
    ui: Ui,
    keymode: Mods,
    isMin: bool,
    virtualKeyboard: bool,
    layerSurface: bool,
    buffer: Option<BufferDesc>,
    sent: seq<Request>)

  /** The compositor's view of the modifiers is the latched value: the last
      modifiers request carries its bits, or none was sent and nothing is
      latched. */
  predicate CompositorAgrees(s: State) {
    match LastModifiers(s.sent)
    case None => s.keymode == NO_MOD
    case Some(bits) => bits == Bits(s.keymode)
  }

  /** The keycode table never yields AltGr, so it is never latched. */
  predicate Invariant(s: State) {
    AltGr !in s.keymode && CompositorAgrees(s)
  }

  /** `State::init` once the registry has been read: nothing latched, not
      minimized, no requests yet. */
  function Init(wlSize: seq<(i32, i32)>, outputs: nat): (s: State)
    ensures s.keymode == NO_MOD && !s.isMin && s.ui == DEFAULT
    ensures !s.virtualKeyboard && !s.layerSurface && s.buffer.None? && s.sent == []
    ensures s.wlSize == wlSize && s.outputs == outputs
    ensures Invariant(s)
  {
    State(wlSize, outputs, DEFAULT, NO_MOD, false, false, false, None, [])
  }

  /** Appending requests that carry no modifiers keeps the invariant. */
  lemma SendKeepsInvariant(s: State, reqs: seq<Request>)
    requires NoModifiers(reqs)
    ensures Invariant(s) ==> Invariant(s.(sent := s.sent + reqs))
  {
    AppendNoModifiers(s.sent, reqs);
  }

  /** `key_press`: a key-down at time 1, nothing else. */
  function KeyPress(s: State, key: u32): (r: State)
    requires s.virtualKeyboard
    ensures r.sent == s.sent + [Key(1, key, KEY_PRESSED)]
    ensures r.keymode == s.keymode && r == s.(sent := r.sent)
    ensures Invariant(s) ==> Invariant(r)
    ensures Configured(s) ==> Configured(r)
  {
    var reqs := [Key(1, key, KEY_PRESSED)];
    SendKeepsInvariant(s, reqs);
    AppendNoResize(s.sent, reqs);
    s.(sent := s.sent + reqs)
  }

  /** `key_release`: a key-up, then the key's modifier XORed into the
      latched value; only a change is announced, and only a change is
      reported. */
  function KeyRelease(s: State, codes: KeyCodes, key: u32): (r: (State, bool))
    requires s.virtualKeyboard
    ensures r.0.keymode == Xor(s.keymode, FromKeycode(codes, key))
    ensures r.1 <==> r.0.keymode != s.keymode
    ensures r.0.sent == s.sent + [Key(1, key, KEY_RELEASED)] +
                        (if r.1 then [Modifiers(Bits(r.0.keymode), 0, 0, 0)] else [])
    ensures r.0 == s.(keymode := r.0.keymode, sent := r.0.sent)
    ensures Invariant(s) ==> Invariant(r.0)
    ensures Configured(s) ==> Configured(r.0)
  {
    var released := s.sent + [Key(1, key, KEY_RELEASED)];
    var modPre := s.keymode;
    var keymode := Xor(s.keymode, FromKeycode(codes, key));
    AppendNoResize(s.sent, [Key(1, key, KEY_RELEASED)]);
    if keymode == modPre then
      AppendNoModifiers(s.sent, [Key(1, key, KEY_RELEASED)]);
      (s.(sent := released), false)
    else
      var sent := released + [Modifiers(Bits(keymode), 0, 0, 0)];
      LastOfAt(sent, |sent| - 1, ModifiersOf);
      AppendNoResize(released, [Modifiers(Bits(keymode), 0, 0, 0)]);
      (s.(keymode := keymode, sent := sent), true)
  }

  /** A release reports a change exactly for the keys the table lists. */
  lemma ReleaseReportsModifier(s: State, codes: KeyCodes, key: u32)
    requires s.virtualKeyboard
    ensures KeyRelease(s, codes, key).1 <==> IsModifierKey(codes, key)
  {
    XorUnchanged(s.keymode, FromKeycode(codes, key));
  }

  /** Releasing any other key sends only the key-up, keeps the latched
      value and reports no change. */
  lemma ReleaseNonModifier(s: State, codes: KeyCodes, key: u32)
    requires s.virtualKeyboard && !IsModifierKey(codes, key)
    ensures var (r, changed) := KeyRelease(s, codes, key);
            && !changed && r.keymode == s.keymode
            && r.sent == s.sent + [Key(1, key, KEY_RELEASED)]
            && LastModifiers(r.sent) == LastModifiers(s.sent)
  {
    ReleaseReportsModifier(s, codes, key);
    AppendNoModifiers(s.sent, [Key(1, key, KEY_RELEASED)]);
  }

  /** A release of a modifier key flips that one flag, and its bit in the
      value sent to the compositor; any other key changes nothing. */
  lemma ReleaseTogglesFlag(s: State, codes: KeyCodes, key: u32)
    requires s.virtualKeyboard
    ensures var m := KeyRelease(s, codes, key).0.keymode;
            match KeyFlag(codes, key)
            case None => m == s.keymode
            case Some(f) =>
              && (f in m <==> f !in s.keymode)
              && (forall g :: g != f ==> (g in m <==> g in s.keymode))
              && Bits(m) == if f in s.keymode then Bits(s.keymode) - Bit(f) else Bits(s.keymode) + Bit(f)
  {
    match KeyFlag(codes, key)
    case None =>
    case Some(f) =>
      assert FromKeycode(codes, key) == {f};
      XorFlag(s.keymode, f);
  }

  /** Releasing the same modifier key twice reports a change both times and
      restores the latched value; the compositor is told the toggled value
      and then the original one. */
  lemma ReleaseTwice(s: State, codes: KeyCodes, key: u32)
    requires s.virtualKeyboard && IsModifierKey(codes, key)
    ensures var (s1, changed1) := KeyRelease(s, codes, key);
            var (s2, changed2) := KeyRelease(s1, codes, key);
            && changed1 && changed2
            && s2.keymode == s.keymode
            && s2.sent == s.sent + [Key(1, key, KEY_RELEASED), Modifiers(Bits(s1.keymode), 0, 0, 0),
                                    Key(1, key, KEY_RELEASED), Modifiers(Bits(s.keymode), 0, 0, 0)]
  {
    var b := FromKeycode(codes, key);
    var s1 := KeyRelease(s, codes, key).0;
    XorUnchanged(s.keymode, b);
    XorUnchanged(s1.keymode, b);
    XorTwice(s.keymode, b);
  }

  /** `draw` into a fresh temporary file. */
  function Draw(render: Renderer, keyType: Mods): (bytes: seq<byte>)
    ensures |bytes| == 4 * |render(keyType)|
    ensures |bytes| % 4 == 0 && Decode(bytes) == seq(|render(keyType)|, k requires 0 <= k < |render(keyType)| => Remap(render(keyType)[k]))
  {
    DecodeDraw(render(keyType));
    DrawBytes(render(keyType))
  }

  /** `set_buffer`: draw the image for `keyType` into a new file, then a
      pool of width*height*4 bytes over it and an ARGB8888 buffer at offset
      0 with stride width*4.  The i32 products panic on overflow. */
  function SetBuffer(s: State, render: Renderer, keyType: Mods): (r: Outcome<State>)
    ensures var (w, h) := GetSize(s.ui);
            r.Ok? <==> SizesFit(w, h)
    ensures var (w, h) := GetSize(s.ui);
            r.Ok? ==> var desc := BufferDesc(0, w, h, w * 4, FORMAT_ARGB8888);
                      r.value == s.(buffer := Some(desc),
                                    sent := s.sent + [CreatePool(Draw(render, keyType), w * h * 4),
                                                      CreateBuffer(desc)])
    ensures var (w, h) := GetSize(s.ui);
            r.Ok? && |render(keyType)| == w * h ==> w * h * 4 == |Draw(render, keyType)|
    ensures r.Ok? && Invariant(s) ==> Invariant(r.value)
  {
    var (width, height) := GetSize(s.ui);
    var file := Draw(render, keyType);
    var (reqs, desc) :- ShmBuffer(file, width, height);
    SendKeepsInvariant(s, reqs);
    Ok(s.(buffer := Some(desc), sent := s.sent + reqs))
  }

  /** `update_map`: damage the whole buffer, render the current modifiers into a
      new buffer, ask for a frame callback, attach the new buffer, commit. */
  function UpdateMap(s: State, render: Renderer): (r: Outcome<State>)
    ensures var (w, h) := GetSize(s.ui);
            r.Ok? <==> SizesFit(w, h)
    ensures var (w, h) := GetSize(s.ui);
            r.Ok? ==> var desc := BufferDesc(0, w, h, w * 4, FORMAT_ARGB8888);
                      r.value == s.(buffer := Some(desc),
                                    sent := s.sent + [DamageBuffer(0, 0, w, h),
                                                      CreatePool(Draw(render, s.keymode), w * h * 4),
                                                      CreateBuffer(desc), Frame,
                                                      Attach(Some(desc), 0, 0), Commit])
    ensures r.Ok? && Invariant(s) ==> Invariant(r.value)
    ensures r.Ok? && Configured(s) ==> Configured(r.value)
  {
    var keyType := s.keymode;
    var (width, height) := GetSize(s.ui);
    var damaged := s.(sent := s.sent + [DamageBuffer(0, 0, width, height)]);
    SendKeepsInvariant(s, [DamageBuffer(0, 0, width, height)]);
    var drawn :- SetBuffer(damaged, render, keyType);
    var reqs := [Frame, Attach(drawn.buffer, 0, 0), Commit];
    SendKeepsInvariant(drawn, reqs);
    AppendNoResize(s.sent, [DamageBuffer(0, 0, width, height),
                            CreatePool(Draw(render, keyType), width * height * 4),
                            CreateBuffer(drawn.buffer.value), Frame, Attach(drawn.buffer, 0, 0), Commit]);
    Ok(drawn.(sent := drawn.sent + reqs))
  }

  /** A release that toggles a modifier, followed by the redraw it asks
      for, puts the image for the new modifiers into the redraw's own pool,
      the request right after its damage. */
  lemma ReleaseThenRedraw(s: State, codes: KeyCodes, key: u32, render: Renderer)
    requires s.virtualKeyboard
    requires KeyRelease(s, codes, key).1
    ensures var s1 := KeyRelease(s, codes, key).0;
            var (w, h) := GetSize(s.ui);
            UpdateMap(s1, render).Ok? ==>
              UpdateMap(s1, render).value.sent[|s1.sent| + 1] ==
                CreatePool(Draw(render, Xor(s.keymode, FromKeycode(codes, key))), w * h * 4)
  {
    var s1 := KeyRelease(s, codes, key).0;
    if UpdateMap(s1, render).Ok? {
      var sent := UpdateMap(s1, render).value.sent;
      assert sent[|s1.sent| + 1].CreatePool?;
    }
  }

  /** `min_keyboard`: shrink to the top margin when minimized, otherwise
      restore the keyboard height; both re-send size and zone and commit.
      `zoneTop` is the constant EXCULDE_ZONE_TOP. */
  function MinKeyboard(s: State, zoneTop: i32): (r: State)
    requires s.layerSurface
    ensures var height := if s.isMin then zoneTop else GetSize(s.ui).1;
            && r == s.(sent := s.sent + ResizeRequests(height))
            && LastZone(r.sent) == Some(height)
            && LastSize(r.sent) == Some((0, I32AsU32(height)))
    ensures Invariant(s) ==> Invariant(r)
  {
    var height := if s.isMin then zoneTop else GetSize(s.ui).1;
    var reqs := ResizeRequests(height);
    LastOfAppend(s.sent, reqs, ZoneOf);
    LastOfAppend(s.sent, reqs, SizeOf);
    SendKeepsInvariant(s, reqs);
    s.(sent := s.sent + reqs)
  }

  function GetSizeFromDisplay(s: State, index: nat): (r: Outcome<(i32, i32)>)
    ensures r.Panicked? <==> |s.wlSize| <= index
    ensures r.Ok? ==> r.value == (s.wlSize[index].0, KEYBOARD_HEIGHT)
  {
    SizeFromDisplay(s.wlSize, index)
  }

  /** `init_layer_surface`: only the height of `size` is used. */
  function InitLayerSurface(s: State, size: (i32, i32), output: Option<nat>): (r: State)
    ensures r.layerSurface
    ensures r == s.(layerSurface := true, sent := s.sent + LayerSurfaceRequests(output, size.1))
    ensures LastZone(r.sent) == Some(size.1) && LastSize(r.sent) == Some((0, I32AsU32(size.1)))
    ensures Invariant(s) ==> Invariant(r)
  {
    var reqs := LayerSurfaceRequests(output, size.1);
    LastOfAppend(s.sent, reqs, ZoneOf);
    LastOfAppend(s.sent, reqs, SizeOf);
    SendKeepsInvariant(s, reqs);
    s.(layerSurface := true, sent := s.sent + reqs)
  }

  /** `init_virtual_keyboard`: create the device and upload the keymap. */
  function InitVirtualKeyboard(s: State, keymap: seq<byte>, env: Env): (r: Outcome<State>)
    ensures r.Ok? <==> 0 !in keymap
    ensures r.Ok? ==> r.value == s.(virtualKeyboard := true, sent := r.value.sent)
    ensures r.Ok? ==> r.value.sent == s.sent + UploadKeymap(keymap, env).value
    ensures r.Ok? && Invariant(s) ==> Invariant(r.value)
  {
    var reqs :- UploadKeymap(keymap, env);
    assert NoModifiers(reqs);
    SendKeepsInvariant(s, reqs);
    Ok(s.(virtualKeyboard := true, sent := s.sent + reqs))
  }

  /** The set-up `main` runs once discovery is over: without both the layer
      shell and xdg_wm_base nothing is created; otherwise the virtual
      keyboard, the first buffer (no modifiers) at the first output's
      width and height 300, and the layer surface on that output. */
  function Startup(s: State, hasLayerShell: bool, hasWmBase: bool, keymap: seq<byte>, env: Env,
                   render: Renderer): (r: Outcome<State>)
    ensures !(hasLayerShell && hasWmBase) ==> r == Ok(s)
    ensures hasLayerShell && hasWmBase ==>
              (r.Ok? <==> && 0 !in keymap && |s.wlSize| > 0 && 0 < s.outputs
                          && SizesFit(s.wlSize[0].0, KEYBOARD_HEIGHT))
    ensures hasLayerShell && hasWmBase && 0 !in keymap && |s.wlSize| == 0 ==>
              r == Panicked(IndexOutOfBounds)
    ensures hasLayerShell && hasWmBase && r.Ok? ==>
              && |s.wlSize| > 0 && 0 !in keymap
              && var w := s.wlSize[0].0;
                 var desc := BufferDesc(0, w, KEYBOARD_HEIGHT, w * 4, FORMAT_ARGB8888);
                 && r.value == s.(ui := Ui(w, KEYBOARD_HEIGHT), virtualKeyboard := true,
                                  layerSurface := true, buffer := Some(desc), sent := r.value.sent)
                 && r.value.sent == s.sent + UploadKeymap(keymap, env).value
                                           + [CreatePool(Draw(render, NO_MOD), w * KEYBOARD_HEIGHT * 4),
                                              CreateBuffer(desc)]
                                           + LayerSurfaceRequests(Some(0), KEYBOARD_HEIGHT)
    ensures hasLayerShell && hasWmBase && r.Ok? ==>
              && LastZone(r.value.sent) == Some(KEYBOARD_HEIGHT)
              && LastSize(r.value.sent) == Some((0, KEYBOARD_HEIGHT as u32))
              && Configured(r.value)
    ensures r.Ok? && Invariant(s) ==> Invariant(r.value)
  {
    if hasLayerShell && hasWmBase then
      var withKeyboard :- InitVirtualKeyboard(s, keymap, env);
      var size :- GetSizeFromDisplay(withKeyboard, 0);
      var sized := withKeyboard.(ui := PangoUi.SetSize(withKeyboard.ui, size));
      var drawn :- SetBuffer(sized, render, NO_MOD);
      // The second `get_size_from_display(0)` reads the same unchanged sizes.
      if drawn.outputs == 0 then Panicked(IndexOutOfBounds)
      else Ok(InitLayerSurface(drawn, size, Some(0)))
    else Ok(s)
  }

  /** The layer-surface configuration `init_layer_surface` leaves: zone
      and size are the keyboard height. */
  predicate Configured(s: State) {
    && s.layerSurface
    && LastZone(s.sent) == Some(GetSize(s.ui).1)
    && LastSize(s.sent) == Some((0, I32AsU32(GetSize(s.ui).1)))
  }

  /** Minimizing and then restoring a configured keyboard re-sends exactly
      the exclusive zone and size it had; start-up leaves it configured. */
  lemma MinimizeThenRestore(s: State, zoneTop: i32)
    requires Configured(s)
    ensures var minimized := MinKeyboard(s.(isMin := true), zoneTop);
            var restored := MinKeyboard(minimized.(isMin := false), zoneTop);
            && LastZone(minimized.sent) == Some(zoneTop)
            && LastSize(minimized.sent) == Some((0, I32AsU32(zoneTop)))
            && LastZone(restored.sent) == LastZone(s.sent)
            && LastSize(restored.sent) == LastSize(s.sent)
  {
  }
}
