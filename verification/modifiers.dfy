/** The sticky-modifier type `KeyModifierType` and the keycode table that
    decides which modifier, if any, a released key toggles. */
module Modifiers {
  import opened Rust

  /** The named flags of `KeyModifierType`. */
  datatype Flag = Shift | CapsLock | Ctrl | Alt | Super | AltGr

  /** A `KeyModifierType` value, a bitflags type over u32, as the set of
      flags whose bits it holds.  Every value the keyboard forms is built
      from the named flags, so the set fixes the bits (`Bits`) and the bits
      fix the set (`BitsDetermineFlags`). */
  type Mods = set<Flag>

  /** `KeyModifierType::NoMod` */
  const NO_MOD: Mods := {}

  /** The bit of each flag in the bitflags declaration. */
  function Bit(f: Flag): u32 {
    match f
    case Shift => 1
    case CapsLock => 2
    case Ctrl => 4
    case Alt => 8
    case Super => 64
    case AltGr => 128
  }

  /** `bits()`: the u32 a value holds, one bit per flag. */
  function Bits(m: Mods): (r: u32)
    ensures r == 0 <==> m == NO_MOD
    ensures forall f :: f in m ==> Bit(f) <= r
  {
    var r := (if Shift in m then 1 else 0) + (if CapsLock in m then 2 else 0) +
             (if Ctrl in m then 4 else 0) + (if Alt in m then 8 else 0) +
             (if Super in m then 64 else 0) + (if AltGr in m then 128 else 0);
    assert r == 0 ==> m == NO_MOD by {
      forall f | f in m
        ensures r != 0
      {
        assert f.Shift? || f.CapsLock? || f.Ctrl? || f.Alt? || f.Super? || f.AltGr?;
      }
    }
    r
  }

  /** Two values with the same bits hold the same flags: each flag's bit
      outweighs all the lower bits together. */
  lemma BitsDetermineFlags(a: Mods, b: Mods)
    requires Bits(a) == Bits(b)
    ensures a == b
  {
    assert (AltGr in a) == (AltGr in b);
    assert (Super in a) == (Super in b);
    assert (Alt in a) == (Alt in b);
    assert (Ctrl in a) == (Ctrl in b);
    assert (CapsLock in a) == (CapsLock in b);
    assert (Shift in a) == (Shift in b);
    forall f
      ensures f in a <==> f in b
    {
      match f
      case Shift =>
      case CapsLock =>
      case Ctrl =>
      case Alt =>
      case Super =>
      case AltGr =>
    }
  }

  /** The bitflags `^` operator: the symmetric difference of the flags. */
  function Xor(a: Mods, b: Mods): (r: Mods)
    ensures forall f :: f in r <==> (f in a) != (f in b)
  {
    (a - b) + (b - a)
  }

  /** XOR with a single flag flips that flag, and its bit in the u32, and
      leaves every other flag alone. */
  lemma XorFlag(m: Mods, f: Flag)
    ensures f in Xor(m, {f}) <==> f !in m
    ensures forall g :: g != f ==> (g in Xor(m, {f}) <==> g in m)
    ensures Bits(Xor(m, {f})) == if f in m then Bits(m) - Bit(f) else Bits(m) + Bit(f)
  {
  }

  /** XOR with a value is undone by XOR with the same value. */
  lemma XorTwice(m: Mods, b: Mods)
    ensures Xor(Xor(m, b), b) == m
  {
  }

  /** XOR leaves a value unchanged exactly when it XORs in nothing. */
  lemma XorUnchanged(m: Mods, b: Mods)
    ensures Xor(m, b) == m <==> b == NO_MOD
  {
    if b != NO_MOD {
      var f :| f in b;
      assert (f in Xor(m, b)) != (f in m);
    }
  }

  /** The keycodes `otherkeys` names; their values are not part of this model. */
  datatype KeyCodes = KeyCodes(
    capsLock: u32,
    shiftLeft: u32, shiftRight: u32,
    menu: u32,
    ctrlLeft: u32, ctrlRight: u32,
    altLeft: u32, altRight: u32)

  predicate IsModifierKey(codes: KeyCodes, key: u32) {
    || key == codes.capsLock || key == codes.shiftLeft || key == codes.shiftRight
    || key == codes.menu || key == codes.ctrlLeft || key == codes.ctrlRight
    || key == codes.altLeft || key == codes.altRight
  }

  /** The arm of `From<u32>` that `key` selects; arms are tried top to bottom. */
  function KeyFlag(codes: KeyCodes, key: u32): Option<Flag> {
    if key == codes.capsLock then Some(CapsLock)
    else if key == codes.shiftLeft || key == codes.shiftRight then Some(Shift)
    else if key == codes.menu then Some(Super)
    else if key == codes.ctrlLeft || key == codes.ctrlRight then Some(Ctrl)
    else if key == codes.altLeft || key == codes.altRight then Some(Alt)
    else None
  }

  /** `KeyModifierType::from(key: u32)`: at most one flag, never AltGr,
      and a flag exactly for the listed keys. */
  function FromKeycode(codes: KeyCodes, key: u32): (m: Mods)
    ensures m == NO_MOD <==> !IsModifierKey(codes, key)
    ensures |m| <= 1 && AltGr !in m
  {
    match KeyFlag(codes, key)
    case None => NO_MOD
    case Some(f) => {f}
  }

  /** `KeyModifierType::from(value: usize)`: `value as u32`, then the table. */
  function FromUsize(codes: KeyCodes, value: usize): (m: Mods)
    ensures value < U32_MODULUS ==> m == FromKeycode(codes, value)
  {
    FromKeycode(codes, UsizeAsU32(value))
  }

  /** The usize conversion only sees the low 32 bits, so keycodes that differ
      by 2^32 select the same modifier. */
  lemma FromUsizeAliases(codes: KeyCodes, value: usize)
    requires value + U32_MODULUS < 0x1_0000_0000_0000_0000
    ensures FromUsize(codes, value + U32_MODULUS) == FromUsize(codes, value)
  {
    assert UsizeAsU32(value + U32_MODULUS) == UsizeAsU32(value);
  }

  /** When the `otherkeys` constants are pairwise distinct the table is the
      one the flag names promise. */
  predicate Distinct(codes: KeyCodes) {
    var all := [codes.capsLock, codes.shiftLeft, codes.shiftRight, codes.menu,
                codes.ctrlLeft, codes.ctrlRight, codes.altLeft, codes.altRight];
    forall i, j :: 0 <= i < j < |all| ==> all[i] != all[j]
  }

  lemma ModifierTable(codes: KeyCodes)
    requires Distinct(codes)
    ensures FromKeycode(codes, codes.capsLock) == {CapsLock}
    ensures FromKeycode(codes, codes.shiftLeft) == {Shift}
    ensures FromKeycode(codes, codes.shiftRight) == {Shift}
    ensures FromKeycode(codes, codes.menu) == {Super}
    ensures FromKeycode(codes, codes.ctrlLeft) == {Ctrl}
    ensures FromKeycode(codes, codes.ctrlRight) == {Ctrl}
    ensures FromKeycode(codes, codes.altLeft) == {Alt}
    ensures FromKeycode(codes, codes.altRight) == {Alt}
  {
    var all := [codes.capsLock, codes.shiftLeft, codes.shiftRight, codes.menu,
                codes.ctrlLeft, codes.ctrlRight, codes.altLeft, codes.altRight];
    assert all[0] != all[1] && all[0] != all[2] && all[0] != all[3];
    assert all[1] != all[3] && all[2] != all[3];
    assert all[0] != all[4] && all[0] != all[5] && all[1] != all[4] && all[1] != all[5];
    assert all[2] != all[4] && all[2] != all[5] && all[3] != all[4] && all[3] != all[5];
    assert all[0] != all[6] && all[0] != all[7] && all[1] != all[6] && all[1] != all[7];
    assert all[2] != all[6] && all[2] != all[7] && all[3] != all[6] && all[3] != all[7];
    assert all[4] != all[6] && all[4] != all[7] && all[5] != all[6] && all[5] != all[7];
  }

  /** One arm of a `match` on keycodes: the codes it lists and its flag. */
  datatype Arm = Arm(keys: seq<u32>, flag: Flag)

  /** The arms of `From<u32>` in source order. */
  function Arms(codes: KeyCodes): seq<Arm> {
    [ Arm([codes.capsLock], CapsLock),
      Arm([codes.shiftLeft, codes.shiftRight], Shift),
      Arm([codes.menu], Super),
      Arm([codes.ctrlLeft, codes.ctrlRight], Ctrl),
      Arm([codes.altLeft, codes.altRight], Alt) ]
  }

  /** Rust `match` semantics: the first arm listing `key` wins. */
  function FirstMatch(arms: seq<Arm>, key: u32): Option<Flag> {
    if |arms| == 0 then None
    else if key in arms[0].keys then Some(arms[0].flag)
    else FirstMatch(arms[1..], key)
  }

  /** First-match answers with the flag of the earliest arm listing `key`,
      and with nothing when no arm lists it. */
  lemma {:induction false} FirstMatchEarliest(arms: seq<Arm>, key: u32)
    ensures FirstMatch(arms, key).None? <==> forall i :: 0 <= i < |arms| ==> key !in arms[i].keys
    ensures FirstMatch(arms, key).Some? ==>
              exists i :: 0 <= i < |arms| && key in arms[i].keys && FirstMatch(arms, key).value == arms[i].flag &&
                          forall j :: 0 <= j < i ==> key !in arms[j].keys
  {
    if |arms| != 0 && key !in arms[0].keys {
      FirstMatchEarliest(arms[1..], key);
      assert forall i :: 1 <= i < |arms| ==> arms[1..][i - 1] == arms[i];
      if FirstMatch(arms, key).Some? {
        var i :| 0 <= i < |arms[1..]| && key in arms[1..][i].keys && FirstMatch(arms, key).value == arms[1..][i].flag &&
                 forall j :: 0 <= j < i ==> key !in arms[1..][j].keys;
        assert forall j :: 0 <= j < i + 1 ==> key !in arms[j].keys by {
          forall j | 0 <= j < i + 1
            ensures key !in arms[j].keys
          {
            if j > 0 {
              assert arms[j] == arms[1..][j - 1];
            }
          }
        }
      }
    }
  }

  /** The table is exactly first-match over the arms in source order, so an
      earlier arm shadows a later one that lists the same code. */
  lemma {:induction false} KeyFlagIsFirstMatch(codes: KeyCodes, key: u32)
    ensures KeyFlag(codes, key) == FirstMatch(Arms(codes), key)
  {
    var arms := Arms(codes);
    assert arms[4..][1..] == [];
    assert arms[3..][1..] == arms[4..];
    assert arms[2..][1..] == arms[3..];
    assert arms[1..][1..] == arms[2..];
    FirstMatchStep(arms[4..], key);
    FirstMatchStep(arms[3..], key);
    FirstMatchStep(arms[2..], key);
    FirstMatchStep(arms[1..], key);
    FirstMatchStep(arms, key);
  }

  lemma FirstMatchStep(arms: seq<Arm>, key: u32)
    requires |arms| > 0
    ensures FirstMatch(arms, key) ==
              if key in arms[0].keys then Some(arms[0].flag) else FirstMatch(arms[1..], key)
  {
  }
}
