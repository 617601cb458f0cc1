/** The colour pass of `draw`: the rendered RGBA image becomes the bytes
    that back the shared-memory pool, with pure white made translucent grey. */
module Render {
  import opened Rust
  import opened Modifiers

  datatype Pixel = Pixel(r: byte, g: byte, b: byte, a: byte)

  /** The keyboard image as the rendering collaborator produces it for a
      modifier value; it is not part of this model. */
  type Renderer = Mods -> seq<Pixel>

  /** The marker colour: white, whatever its alpha. */
  predicate IsWhite(p: Pixel) {
    p.r == 255 && p.g == 255 && p.b == 255
  }

  const TRANSLUCENT_GREY: Pixel := Pixel(50, 50, 50, 50)

  function Remap(p: Pixel): Pixel {
    if IsWhite(p) then TRANSLUCENT_GREY else p
  }

  function Channels(p: Pixel): seq<byte> {
    [p.r, p.g, p.b, p.a]
  }

  /** The bytes `draw` writes for an image. */
  function DrawBytes(pixels: seq<Pixel>): (out: seq<byte>)
    ensures |out| == 4 * |pixels|
  {
    if |pixels| == 0 then []
    else DrawBytes(pixels[..|pixels| - 1]) + Channels(Remap(pixels[|pixels| - 1]))
  }

  /** Reads raw r, g, b, a bytes back as pixels, four bytes each. */
  function Decode(bytes: seq<byte>): (pixels: seq<Pixel>)
    requires |bytes| % 4 == 0
  {
    seq(|bytes| / 4, k requires 0 <= k < |bytes| / 4 =>
      Pixel(bytes[4 * k], bytes[4 * k + 1], bytes[4 * k + 2], bytes[4 * k + 3]))
  }

  /** Byte `c` of pixel `k` in the output is channel `c` of the remapped
      pixel: pixels are written in order, four bytes each. */
  lemma {:induction false} DrawnChannel(pixels: seq<Pixel>, k: nat, c: nat)
    requires k < |pixels| && c < 4
    ensures 4 * k + c < |DrawBytes(pixels)|
    ensures DrawBytes(pixels)[4 * k + c] == Channels(Remap(pixels[k]))[c]
    decreases |pixels|
  {
    var n := |pixels| - 1;
    var front := DrawBytes(pixels[..n]);
    assert DrawBytes(pixels) == front + Channels(Remap(pixels[n]));
    if k < n {
      DrawnChannel(pixels[..n], k, c);
      assert pixels[..n][k] == pixels[k];
    }
  }

  /** Pixel `k` read back from the output. */
  lemma DecodedPixel(pixels: seq<Pixel>, k: nat)
    requires k < |pixels|
    ensures |DrawBytes(pixels)| % 4 == 0 && |Decode(DrawBytes(pixels))| == |pixels|
    ensures Decode(DrawBytes(pixels))[k] == Remap(pixels[k])
  {
    var out := DrawBytes(pixels);
    WholePixels(|pixels|);
    DrawnChannel(pixels, k, 0);
    DrawnChannel(pixels, k, 1);
    DrawnChannel(pixels, k, 2);
    DrawnChannel(pixels, k, 3);
    var p := Remap(pixels[k]);
    assert Decode(out)[k] == Pixel(out[4 * k], out[4 * k + 1], out[4 * k + 2], out[4 * k + 3]);
    assert Channels(p) == [p.r, p.g, p.b, p.a];
  }

  lemma WholePixels(n: nat)
    ensures (4 * n) % 4 == 0 && (4 * n) / 4 == n
  {
  }

  /** The written bytes decode to the image with every pixel remapped: the
      layout is r, g, b, a per pixel, pixels in order, nothing else. */
  lemma DecodeDraw(pixels: seq<Pixel>)
    ensures |DrawBytes(pixels)| % 4 == 0
    ensures Decode(DrawBytes(pixels)) == seq(|pixels|, k requires 0 <= k < |pixels| => Remap(pixels[k]))
  {
    var out := DrawBytes(pixels);
    var expected := seq(|pixels|, k requires 0 <= k < |pixels| => Remap(pixels[k]));
    assert |out| / 4 == |pixels|;
    forall k | 0 <= k < |pixels|
      ensures Decode(out)[k] == expected[k]
    {
      DecodedPixel(pixels, k);
    }
  }

  /** White pixels become translucent grey and every other pixel is kept. */
  lemma DrawPixel(pixels: seq<Pixel>, k: nat)
    requires k < |pixels|
    ensures DrawBytes(pixels)[4 * k .. 4 * k + 4] ==
              if IsWhite(pixels[k]) then [50, 50, 50, 50] else Channels(pixels[k])
  {
    DrawnPixel(pixels, k);
    RemapChannels(pixels[k]);
  }

  /** The four bytes of pixel `k` are its remapped channels. */
  lemma DrawnPixel(pixels: seq<Pixel>, k: nat)
    requires k < |pixels|
    ensures 4 * k + 4 <= |DrawBytes(pixels)|
    ensures DrawBytes(pixels)[4 * k .. 4 * k + 4] == Channels(Remap(pixels[k]))
  {
    DrawnChannel(pixels, k, 0);
    DrawnChannel(pixels, k, 1);
    DrawnChannel(pixels, k, 2);
    DrawnChannel(pixels, k, 3);
    Chunk(DrawBytes(pixels), 4 * k, Channels(Remap(pixels[k])));
  }

  lemma RemapChannels(p: Pixel)
    ensures Channels(Remap(p)) == if IsWhite(p) then [50, 50, 50, 50] else Channels(p)
  {
  }

  lemma Chunk(out: seq<byte>, start: nat, want: seq<byte>)
    requires |want| == 4 && start + 4 <= |out|
    requires out[start] == want[0] && out[start + 1] == want[1]
    requires out[start + 2] == want[2] && out[start + 3] == want[3]
    ensures out[start .. start + 4] == want
  {
  }

  /** No white pixel survives `draw`. */
  lemma NoWhiteDrawn(pixels: seq<Pixel>)
    ensures |DrawBytes(pixels)| % 4 == 0
    ensures forall p :: p in Decode(DrawBytes(pixels)) ==> !IsWhite(p)
  {
    DecodeDraw(pixels);
  }

  /** `draw`'s loop: each pixel is written through the buffered writer after
      `file`'s current contents. */
  method DrawLoop(file: seq<byte>, pixels: seq<Pixel>) returns (written: seq<byte>)
    ensures written == file + DrawBytes(pixels)
  {
    written := file;
    var i := 0;
    while i < |pixels|
      invariant 0 <= i <= |pixels|
      invariant written == file + DrawBytes(pixels[..i])
    {
      var r, g, b, a := pixels[i].r, pixels[i].g, pixels[i].b, pixels[i].a;
      if r == 255 && g == 255 && b == 255 {
        a := 50;
        r := 50;
        g := 50;
        b := 50;
      }
      written := written + [r, g, b, a];
      assert pixels[..i + 1][..i] == pixels[..i];
      i := i + 1;
    }
    assert pixels[..|pixels|] == pixels;
  }
}
