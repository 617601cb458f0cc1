/** The `State` of the carioex client: a number pad without modifiers
    whose image goes into one temporary file held for the whole run. */
module Carioex {
  import opened Rust
  import opened Protocol
  import opened Render
  import opened Keymap
  import opened PangoUi
  import opened Surface

  /** The parts of `State` the core reads and writes.  `tempfile` is what
      the file created by `State::init` holds; it is never truncated and
      never rewound, so every `draw` writes after the previous one. */
  datatype State = State(
    wlSize: seq<(i32, i32)>,
    outputs: nat,
    ui: Ui,
    tempfile: seq<byte>,
    virtualKeyboard: bool,
    layerSurface: bool,
    buffer: Option<BufferDesc>,
    sent: seq<Request>)

  /** `State::init` once the registry has been read: an empty file, the
      default ui, no requests yet. */
  function Init(wlSize: seq<(i32, i32)>, outputs: nat): (s: State)
    ensures s.tempfile == [] && s.sent == [] && s.ui == DEFAULT
    ensures !s.virtualKeyboard && !s.layerSurface && s.buffer.None?
    ensures s.wlSize == wlSize && s.outputs == outputs
  {
    State(wlSize, outputs, DEFAULT, [], false, false, None, [])
  }

  /** `draw`: the image's pixels, white made translucent grey, written
      after what the file already holds. */
  function DrawInto(s: State, image: seq<Pixel>): (r: State)
    ensures |r.tempfile| == |s.tempfile| + 4 * |image|
    ensures r.tempfile[..|s.tempfile|] == s.tempfile
    ensures r == s.(tempfile := r.tempfile)
  {
    s.(tempfile := s.tempfile + DrawBytes(image))
  }

  /** The bytes a `draw` adds decode to the image with every pixel
      remapped, in order. */
  lemma DrawIntoAppendsImage(s: State, image: seq<Pixel>)
    ensures var added := DrawInto(s, image).tempfile[|s.tempfile|..];
            && |added| % 4 == 0
            && Decode(added) == seq(|image|, k requires 0 <= k < |image| => Remap(image[k]))
  {
    var r := DrawInto(s, image);
    assert r.tempfile[|s.tempfile|..] == DrawBytes(image);
    DecodeDraw(image);
  }

  /** `set_buffer`: draw the image (always for no modifiers) into the file,
      then a pool of width*height*4 bytes over the whole file and an
      ARGB8888 buffer at offset 0 with stride width*4.  The i32 products
      panic on overflow. */
  function SetBuffer(s: State, image: seq<Pixel>): (r: Outcome<State>)
    ensures var (w, h) := GetSize(s.ui);
            r.Ok? <==> SizesFit(w, h)
    ensures var (w, h) := GetSize(s.ui);
            r.Ok? ==> var desc := BufferDesc(0, w, h, w * 4, FORMAT_ARGB8888);
                      && r.value.buffer == Some(desc)
                      && r.value.sent == s.sent + [CreatePool(r.value.tempfile, w * h * 4), CreateBuffer(desc)]
                      && r.value == DrawInto(s, image).(buffer := r.value.buffer, sent := r.value.sent)
    ensures r.Ok? ==> LastModifiers(r.value.sent) == LastModifiers(s.sent)
  {
    var (width, height) := GetSize(s.ui);
    var drawn := DrawInto(s, image);
    var (reqs, desc) :- ShmBuffer(drawn.tempfile, width, height);
    AppendNoModifiers(s.sent, reqs);
    Ok(drawn.(buffer := Some(desc), sent := s.sent + reqs))
  }

  /** Drawn into the file `State::init` left empty, the pool holds exactly
      the image; when the image has width*height pixels the pool's size is
      the file's length. */
  lemma FirstBufferShowsImage(s: State, image: seq<Pixel>)
    requires s.tempfile == [] && SetBuffer(s, image).Ok?
    ensures var pool := SetBuffer(s, image).value.sent[|s.sent|];
            && pool.CreatePool?
            && |pool.data| % 4 == 0
            && Decode(pool.data) == seq(|image|, k requires 0 <= k < |image| => Remap(image[k]))
            && (|image| == s.ui.width * s.ui.height ==> pool.poolSize as int == |pool.data|)
  {
    DrawIntoAppendsImage(s, image);
    assert DrawInto(s, image).tempfile[0..] == DrawInto(s, image).tempfile;
  }

  /** A second `set_buffer` would not show the new image: its pool maps the
      start of the file, which still holds the first drawing.  `main` calls
      `set_buffer` once. */
  lemma SecondBufferShowsFirstImage(s: State, first: seq<Pixel>, second: seq<Pixel>)
    requires s.tempfile == [] && SetBuffer(s, first).Ok?
    ensures var s1 := SetBuffer(s, first).value;
            SetBuffer(s1, second).Ok? &&
            SetBuffer(s1, second).value.sent[|s1.sent|].data[..4 * |first|] == DrawBytes(first)
  {
    var s1 := SetBuffer(s, first).value;
    assert s1.ui == s.ui;
    var s2 := SetBuffer(s1, second).value;
    assert s2.tempfile[..|s1.tempfile|] == s1.tempfile;
  }

  /** `key_press`: a key-down at time 1. */
  function KeyPress(s: State, key: u32): (r: State)
    requires s.virtualKeyboard
    ensures |r.sent| == |s.sent| + 1 && r.sent[..|s.sent|] == s.sent
    ensures r.sent[|s.sent|] == Key(1, key, KEY_PRESSED) && r == s.(sent := r.sent)
  {
    s.(sent := s.sent + [Key(1, key, KEY_PRESSED)])
  }

  /** `key_release`: a key-up at time 1; this keyboard latches no modifiers. */
  function KeyRelease(s: State, key: u32): (r: State)
    requires s.virtualKeyboard
    ensures |r.sent| == |s.sent| + 1 && r.sent[..|s.sent|] == s.sent
    ensures r.sent[|s.sent|] == Key(1, key, KEY_RELEASED) && r == s.(sent := r.sent)
  {
    s.(sent := s.sent + [Key(1, key, KEY_RELEASED)])
  }

  /** A tap is a press and a release of the same key and nothing else; the
      compositor is never told about modifiers. */
  lemma TapSendsKeyPair(s: State, key: u32)
    requires s.virtualKeyboard
    ensures var r := KeyRelease(KeyPress(s, key), key);
            && r.sent == s.sent + [Key(1, key, KEY_PRESSED), Key(1, key, KEY_RELEASED)]
            && LastModifiers(r.sent) == LastModifiers(s.sent)
  {
    var reqs := [Key(1, key, KEY_PRESSED), Key(1, key, KEY_RELEASED)];
    var r := KeyRelease(KeyPress(s, key), key);
    assert r.sent == s.sent + reqs;
    AppendNoModifiers(s.sent, reqs);
  }

  function GetSizeFromDisplay(s: State, index: nat): (r: Outcome<(i32, i32)>)
    ensures r.Panicked? <==> |s.wlSize| <= index
    ensures r.Ok? ==> r.value == (s.wlSize[index].0, KEYBOARD_HEIGHT)
  {
    SizeFromDisplay(s.wlSize, index)
  }

  /** `init_layer_surface`: only the height of `size` is used. */
  function InitLayerSurface(s: State, size: (i32, i32), output: Option<nat>): (r: State)
    ensures r.layerSurface && r.tempfile == s.tempfile
    ensures r == s.(layerSurface := true, sent := s.sent + LayerSurfaceRequests(output, size.1))
    ensures LastZone(r.sent) == Some(size.1) && LastSize(r.sent) == Some((0, I32AsU32(size.1)))
    ensures LastModifiers(r.sent) == LastModifiers(s.sent)
  {
    var reqs := LayerSurfaceRequests(output, size.1);
    LastOfAppend(s.sent, reqs, ZoneOf);
    LastOfAppend(s.sent, reqs, SizeOf);
    AppendNoModifiers(s.sent, reqs);
    s.(layerSurface := true, sent := s.sent + reqs)
  }

  /** `init_virtual_keyboard`: create the device and upload the keymap. */
  function InitVirtualKeyboard(s: State, keymap: seq<byte>, env: Env): (r: Outcome<State>)
    ensures r.Ok? <==> 0 !in keymap
    ensures r.Ok? ==> r.value == s.(virtualKeyboard := true, sent := r.value.sent)
    ensures r.Ok? ==> r.value.sent == s.sent + UploadKeymap(keymap, env).value
    ensures r.Ok? ==> LastModifiers(r.value.sent) == LastModifiers(s.sent)
  {
    var reqs :- UploadKeymap(keymap, env);
    assert NoModifiers(reqs);
    AppendNoModifiers(s.sent, reqs);
    Ok(s.(virtualKeyboard := true, sent := s.sent + reqs))
  }

  /** The set-up `main` runs once discovery is over: without both the layer
      shell and xdg_wm_base nothing is created; otherwise the virtual
      keyboard, the one buffer at the first output's width and height 300,
      and the layer surface on that output. */
  function Startup(s: State, hasLayerShell: bool, hasWmBase: bool, keymap: seq<byte>, env: Env,
                   image: seq<Pixel>): (r: Outcome<State>)
    ensures !(hasLayerShell && hasWmBase) ==> r == Ok(s)
    ensures hasLayerShell && hasWmBase ==>
              (r.Ok? <==> && 0 !in keymap && |s.wlSize| > 0 && 0 < s.outputs
                          && SizesFit(s.wlSize[0].0, KEYBOARD_HEIGHT))
    ensures hasLayerShell && hasWmBase && 0 !in keymap && |s.wlSize| == 0 ==>
              r == Panicked(IndexOutOfBounds)
    ensures hasLayerShell && hasWmBase && r.Ok? ==>
              && |s.wlSize| > 0 && 0 !in keymap
              && var w := s.wlSize[0].0;
                 var desc := BufferDesc(0, w, KEYBOARD_HEIGHT, w * 4, FORMAT_ARGB8888);
                 var file := s.tempfile + DrawBytes(image);
                 var upload := UploadKeymap(keymap, env).value;
                 var buffer := [CreatePool(file, w * KEYBOARD_HEIGHT * 4), CreateBuffer(desc)];
                 var layer := LayerSurfaceRequests(Some(0), KEYBOARD_HEIGHT);
                 && r.value == s.(ui := Ui(w, KEYBOARD_HEIGHT), tempfile := file, virtualKeyboard := true,
                                  layerSurface := true, buffer := Some(desc), sent := r.value.sent)
                 && r.value.sent == s.sent + upload + buffer + layer
                 && NoModifiers(upload + buffer + layer)
    ensures hasLayerShell && hasWmBase && r.Ok? ==>
              && LastZone(r.value.sent) == Some(KEYBOARD_HEIGHT)
              && LastSize(r.value.sent) == Some((0, KEYBOARD_HEIGHT as u32))
    ensures r.Ok? ==> LastModifiers(r.value.sent) == LastModifiers(s.sent)
  {
    if hasLayerShell && hasWmBase then
      var withKeyboard :- InitVirtualKeyboard(s, keymap, env);
      var size :- GetSizeFromDisplay(withKeyboard, 0);
      var sized := withKeyboard.(ui := PangoUi.SetSize(withKeyboard.ui, size));
      var drawn :- SetBuffer(sized, image);
      // The second `get_size_from_display(0)` reads the same unchanged sizes.
      if drawn.outputs == 0 then Panicked(IndexOutOfBounds)
      else
        var upload := UploadKeymap(keymap, env).value;
        var buffer := [CreatePool(drawn.tempfile, size.0 * KEYBOARD_HEIGHT * 4), CreateBuffer(drawn.buffer.value)];
        ConcatNoModifiers(upload, buffer);
        ConcatNoModifiers(upload + buffer, LayerSurfaceRequests(Some(0), KEYBOARD_HEIGHT));
        Ok(InitLayerSurface(drawn, size, Some(0)))
    else Ok(s)
  }
}
