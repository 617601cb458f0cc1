/** `PangoUi`: the keyboard's size and the hit test that turns a position
    on the surface into a keycode. */
module PangoUi {
  import opened Rust

  /** The `PangoUi` record; `#[derive(Default)]` makes both fields 0. */
  datatype Ui = Ui(width: i32, height: i32)

  const DEFAULT: Ui := Ui(0, 0)

  /** The keycode the middle of the right-hand column yields (minimize). */
  const TOGGLE_KEY: u32 := 11

  /** `find_keycode_from_smallkeyboard(position, x_1, step)`, the grid
      lookup of the layout module, which is not part of this model. */
  type KeycodeLookup = ((i32, i32), i32, i32) -> u32

  function SetSize(ui: Ui, size: (i32, i32)): (r: Ui)
    ensures GetSize(r) == size
  {
    Ui(size.0, size.1)
  }

  function GetSize(ui: Ui): (r: (i32, i32))
    ensures Ui(r.0, r.1) == ui
  {
    (ui.width, ui.height)
  }

  /** The geometry `get_key` computes, in exact integers. */
  function Step(ui: Ui): int {
    TruncDiv(ui.height, 3)
  }

  function GridLeft(ui: Ui): int {
    ui.width - 4 * Step(ui)
  }

  function GridRight(ui: Ui): int {
    ui.width - Step(ui)
  }

  /** The i32 arithmetic of `get_key` does not overflow. */
  predicate Fits(ui: Ui) {
    InI32(4 * Step(ui)) && InI32(GridLeft(ui)) && InI32(GridRight(ui))
  }

  /** `PangoUi::get_key`, on a position whose coordinates were already
      truncated to i32. */
  function GetKey(ui: Ui, pos: (i32, i32), find: KeycodeLookup): (r: Outcome<Option<u32>>)
    ensures r.Ok? ==> Fits(ui)
    ensures Fits(ui) && pos.0 < GridLeft(ui) ==> r == Ok(None)
    ensures Fits(ui) && GridLeft(ui) <= pos.0 <= GridRight(ui) ==>
              r == Ok(Some(find(pos, GridLeft(ui), Step(ui))))
    ensures Fits(ui) && GridRight(ui) < pos.0 && Step(ui) == 0 ==> r == Panicked(DivisionByZero)
    ensures Fits(ui) && GridLeft(ui) <= pos.0 && GridRight(ui) < pos.0 && Step(ui) != 0 && !(pos.1 == I32_MIN && Step(ui) == -1) ==>
              r == if TruncDiv(pos.1, Step(ui)) == 1 then Ok(Some(TOGGLE_KEY)) else Ok(None)
    ensures r.Ok? && r.value.None? ==> pos.0 < GridLeft(ui) || GridRight(ui) < pos.0
  {
    var step: i32 := TruncDiv(ui.height, 3);
    var fourSteps :- CheckedMul(4, step);
    var x1 :- CheckedSub(ui.width, fourSteps);
    var x4 :- CheckedSub(ui.width, step);
    if pos.0 < x1 then Ok(None)
    else if pos.0 > x4 then
      var row :- CheckedDiv(pos.1, step);
      if row == 1 then Ok(Some(TOGGLE_KEY)) else Ok(None)
    else Ok(Some(find(pos, x1, step)))
  }

  /** At a height of -3, -4 or -5 the step is -1, and a position right of
      both grid edges at the lowest i32 row makes `pos_y / step` overflow. */
  lemma RightColumnOverflow(ui: Ui, pos: (i32, i32), find: KeycodeLookup)
    requires Fits(ui) && GridLeft(ui) <= pos.0 && GridRight(ui) < pos.0 && Step(ui) == -1 && pos.1 == I32_MIN
    ensures GetKey(ui, pos, find) == Panicked(ArithmeticOverflow)
  {
  }

  /** Where a position falls, described geometrically and without division. */
  datatype Region = LeftOfGrid | Grid | MinimizeButton | RightColumn

  function RegionOf(ui: Ui, pos: (i32, i32)): Region {
    var s := Step(ui);
    if pos.0 < GridLeft(ui) then LeftOfGrid
    else if pos.0 <= GridRight(ui) then Grid
    else if s <= pos.1 < 2 * s then MinimizeButton
    else RightColumn
  }

  /** For a surface at least three pixels high whose arithmetic fits, the
      hit test never panics and answers by region: nothing left of the grid,
      the layout's keycode inside it, keycode 11 in the middle third of the
      right-hand column and nothing elsewhere in that column. */
  lemma GetKeyByRegion(ui: Ui, pos: (i32, i32), find: KeycodeLookup)
    requires 3 <= ui.height && Fits(ui)
    ensures GetKey(ui, pos, find) ==
              match RegionOf(ui, pos)
              case LeftOfGrid => Ok(None)
              case Grid => Ok(Some(find(pos, GridLeft(ui), Step(ui))))
              case MinimizeButton => Ok(Some(TOGGLE_KEY))
              case RightColumn => Ok(None)
  {
    var s := Step(ui);
    assert s == ui.height / 3;
    assert 1 <= s by { DivAtLeastOne(ui.height); }
    if pos.0 > GridRight(ui) {
      MiddleThird(pos.1, s);
    }
  }

  lemma DivAtLeastOne(h: nat)
    requires 3 <= h
    ensures 1 <= h / 3
  {
  }

  /** Rust's `y / step == 1` picks out the band `step <= y < 2 * step`,
      negative `y` included. */
  lemma MiddleThird(y: int, s: int)
    requires 1 <= s
    ensures TruncDiv(y, s) == 1 <==> s <= y < 2 * s
  {
    if 0 <= y {
      if s <= y < 2 * s {
        DivUnique(y, s, 1, y - s);
      }
      var q := y / s;
      assert y == s * q + y % s;
      if q == 1 {
        assert y == s + y % s;
      }
    } else {
      assert TruncDiv(y, s) <= 0 by {
        DivNoLarger(-y, s);
      }
    }
  }

  /** A surface no larger than 2^30 in either direction never overflows. */
  lemma SaneSizesFit(ui: Ui)
    requires 0 <= ui.width <= 0x4000_0000 && 0 <= ui.height <= 0x4000_0000
    ensures Fits(ui)
  {
    assert Step(ui) == ui.height / 3;
    assert ui.height / 3 <= ui.height by { DivNoLarger(ui.height, 3); }
  }

  /** Below three pixels of height the step is 0: the grid shrinks to the
      single column x = width and anything right of it divides by zero. */
  lemma FlatSurface(ui: Ui, pos: (i32, i32), find: KeycodeLookup)
    requires 0 <= ui.height < 3
    ensures pos.0 < ui.width ==> GetKey(ui, pos, find) == Ok(None)
    ensures pos.0 == ui.width ==> GetKey(ui, pos, find) == Ok(Some(find(pos, ui.width, 0)))
    ensures pos.0 > ui.width ==> GetKey(ui, pos, find) == Panicked(DivisionByZero)
  {
    assert Step(ui) == 0;
  }

  /** A 480x300 keyboard: step 100, grid from x = 80 to x = 380. */
  lemma WorkedExample(find: KeycodeLookup)
    ensures GetKey(Ui(480, 300), (500, 150), find) == Ok(Some(11))
    ensures GetKey(Ui(480, 300), (500, 50), find) == Ok(None)
    ensures GetKey(Ui(480, 300), (50, 150), find) == Ok(None)
    ensures GetKey(Ui(480, 300), (200, 150), find) == Ok(Some(find((200, 150), 80, 100)))
  {
    assert Step(Ui(480, 300)) == 100;
  }
}
