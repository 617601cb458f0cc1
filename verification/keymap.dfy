/** Framing the compiled keymap for the virtual keyboard: the keymap text
    as a NUL-terminated blob in a file, together with its length. */
module Keymap {
  import opened Rust
  import opened Protocol

  type Path = string

  /** The process environment `get_keymap_as_file` consults: the value of
      XDG_RUNTIME_DIR if it is set (possibly empty), and what
      `std::env::temp_dir()` returns. */
  datatype Env = Env(runtimeDir: Option<Path>, tempDir: Path)

  /** The file handed to the compositor: where it was created, the bytes
      written to it, and the size reported alongside. */
  datatype KeymapFile = KeymapFile(dir: Path, contents: seq<byte>, size: u32)

  /** The directory the keymap file is created in. */
  function KeymapDir(env: Env): (dir: Path)
    ensures env.runtimeDir.Some? ==> dir == env.runtimeDir.value
    ensures env.runtimeDir.None? ==> dir == env.tempDir
  {
    match env.runtimeDir
    case Some(d) => d
    case None => env.tempDir
  }

  /** `get_keymap_as_file`: `text` is the UTF-8 bytes xkbcommon serialised
      the keymap to.  `CString::new` refuses an interior NUL, and the
      `expect` turns that into a panic. */
  function GetKeymapAsFile(text: seq<byte>, env: Env): (r: Outcome<KeymapFile>)
    ensures r.Panicked? <==> 0 in text
    ensures r.Panicked? ==> r.panic == InteriorNul
    ensures r.Ok? ==> r.value.dir == KeymapDir(env)
    ensures r.Ok? ==> ReadCString(r.value.contents) == Some(text)
    ensures r.Ok? ==> |r.value.contents| == |text| + 1 && r.value.contents[|text|] == 0
    ensures r.Ok? && |text| + 1 < U32_MODULUS ==> r.value.size as int == |r.value.contents|
  {
    if 0 in text then Panicked(InteriorNul)
    else
      var blob := text + [0];
      ReadBack(text);
      Ok(KeymapFile(KeymapDir(env), blob, UsizeAsU32(|blob|)))
  }

  /** How a C reader takes a string out of a blob: the bytes before the
      first NUL; a blob without a NUL holds no string. */
  function ReadCString(bytes: seq<byte>): Option<seq<byte>> {
    if |bytes| == 0 then None
    else if bytes[0] == 0 then Some([])
    else match ReadCString(bytes[1..])
      case None => None
      case Some(rest) => Some([bytes[0]] + rest)
  }

  /** Framing text without a NUL and reading it back returns the text. */
  lemma {:induction false} ReadBack(text: seq<byte>)
    requires 0 !in text
    ensures ReadCString(text + [0]) == Some(text)
  {
    if |text| != 0 {
      assert (text + [0])[1..] == text[1..] + [0];
      ReadBack(text[1..]);
      assert [text[0]] + text[1..] == text;
    }
  }

  /** `init_virtual_keyboard`: create the virtual keyboard, then upload the
      keymap in the xkb_v1 format. */
  function UploadKeymap(text: seq<byte>, env: Env): (r: Outcome<seq<Request>>)
    ensures r.Ok? <==> 0 !in text
    ensures r.Ok? ==> |r.value| == 2 && r.value[0] == CreateVirtualKeyboard
    ensures r.Ok? ==> NoModifiers(r.value)
    ensures r.Ok? ==> r.value[1].Keymap? && r.value[1].format == KEYMAP_FORMAT_XKB_V1
    ensures r.Ok? ==> ReadCString(r.value[1].contents) == Some(text)
    ensures r.Ok? && |text| + 1 < U32_MODULUS ==>
              r.value[1].keymapSize as int == |r.value[1].contents| == |text| + 1
  {
    var file :- GetKeymapAsFile(text, env);
    Ok([CreateVirtualKeyboard, Keymap(KEYMAP_FORMAT_XKB_V1, file.contents, file.size)])
  }
}
