/**
  The text screen of one terminal: a cursor and the page it reaches through the video memory.
 */
module TextScreen {
  import opened Common
  import opened Layout
  import opened Screen
  import opened VideoMemory

  class TextScreen {
    const id: nat
    const vm: VideoMemory
    const color: byte
    var x: nat
    var y: nat
    ghost var view: Screen  // what is shown

    ghost predicate Valid()
      reads this, vm, vm.pageTable, vm.phys
    {
      && vm.Valid() && id < NUM_TERM
      && view == Screen(Cells(vm.Page(id)), x, y) && IsScreen(view)
    }

    constructor (id: nat, vm: VideoMemory, color: byte)
      requires vm.Valid() && id < NUM_TERM
      ensures this.id == id && this.vm == vm && this.color == color
      ensures Valid() && view.x == 0 && view.y == 0
    {
      this.id, this.vm, this.color := id, vm, color;
      x, y := 0, 0;
      view := Screen(Cells(vm.Page(id)), 0, 0);
    }

    /** Moves every row up by one, in place, and blanks the last. */
    method ScrollScreen()
      requires vm.Valid() && id < NUM_TERM
      modifies this`x, this`y, vm.phys
      ensures vm.Valid() && x == 0 && y == NUM_ROWS - 1
      ensures Cells(vm.Page(id)) == old(Cells(vm.Page(id)))[NUM_COLS..] + Blanks(NUM_COLS, color)
      ensures forall u :: 0 <= u < NUM_TERM && u != id ==> vm.Page(u) == old(vm.Page(u))
    {
      ghost var cells := Cells(vm.Page(id));
      var row := 0;
      while row < NUM_ROWS - 1
        invariant 0 <= row <= NUM_ROWS - 1 && vm.Valid()
        invariant Cells(vm.Page(id)) == cells[NUM_COLS..NUM_COLS * (row + 1)] + cells[NUM_COLS * row..]
        invariant forall u :: 0 <= u < NUM_TERM && u != id ==> vm.Page(u) == old(vm.Page(u))
      {
        MoveRowUp(row, cells);
        row := row + 1;
      }
      BlankLastRow(cells[NUM_COLS..]);
      x := 0;
      y := NUM_ROWS - 1;
    }

    method BlankLastRow(ghost top: seq<Cell>)
      requires vm.Valid() && id < NUM_TERM && |top| == CELLS - NUM_COLS
      requires Cells(vm.Page(id))[..CELLS - NUM_COLS] == top
      modifies vm.phys
      ensures vm.Valid() && Cells(vm.Page(id)) == top + Blanks(NUM_COLS, color)
      ensures forall u :: 0 <= u < NUM_TERM && u != id ==> vm.Page(u) == old(vm.Page(u))
    {
      var col := 0;
      while col < NUM_COLS
        invariant 0 <= col <= NUM_COLS && vm.Valid()
        invariant Cells(vm.Page(id))[..CELLS - NUM_COLS + col] == top + Blanks(col, color)
        invariant forall u :: 0 <= u < NUM_TERM && u != id ==> vm.Page(u) == old(vm.Page(u))
      {
        vm.SetCell(id, NUM_COLS * (NUM_ROWS - 1) + col, SPACE, color);
        col := col + 1;
      }
    }

    method MoveRowUp(row: nat, ghost cells: seq<Cell>)
      requires vm.Valid() && id < NUM_TERM && row < NUM_ROWS - 1 && |cells| == CELLS
      requires Cells(vm.Page(id)) == cells[NUM_COLS..NUM_COLS * (row + 1)] + cells[NUM_COLS * row..]
      modifies vm.phys
      ensures vm.Valid()
      ensures Cells(vm.Page(id)) == cells[NUM_COLS..NUM_COLS * (row + 2)] + cells[NUM_COLS * (row + 1)..]
      ensures forall u :: 0 <= u < NUM_TERM && u != id ==> vm.Page(u) == old(vm.Page(u))
    {
      var col := 0;
      while col < NUM_COLS
        invariant 0 <= col <= NUM_COLS && vm.Valid()
        invariant Cells(vm.Page(id)) == cells[NUM_COLS..NUM_COLS * (row + 1) + col] + cells[NUM_COLS * row + col..]
        invariant forall u :: 0 <= u < NUM_TERM && u != id ==> vm.Page(u) == old(vm.Page(u))
      {
        var low := NUM_COLS * (row + 1) + col;
        var up := NUM_COLS * row + col;
        var cell := vm.GetCell(id, low);
        vm.SetCell(id, up, cell.ch, cell.attr);
        assert Cells(vm.Page(id)) ==
               cells[NUM_COLS..NUM_COLS * (row + 1) + col + 1] + cells[NUM_COLS * row + col + 1..];
        col := col + 1;
      }
    }

    /** To the start of the next line, as Enter and term_putc both do it. */
    method LineFeed()
      requires Valid()
      modifies this, vm.phys
      ensures Valid() && view == NewLine(old(view), color)
      ensures forall u :: 0 <= u < NUM_TERM && u != id ==> vm.Page(u) == old(vm.Page(u))
    {
      x := 0;
      y := y + 1;
      if y == NUM_ROWS {
        ScrollScreen();
      }
      view := Screen(Cells(vm.Page(id)), x, y);
    }

    method TermPutc(c: byte)
      requires Valid()
      modifies this, vm.phys
      ensures Valid() && view == Put(old(view), c, color)
      ensures forall u :: 0 <= u < NUM_TERM && u != id ==> vm.Page(u) == old(vm.Page(u))
    {
      if BreaksLine(c) {
        LineFeed();
      } else {
        vm.SetCell(id, NUM_COLS * y + x, c, color);
        view := Screen(Cells(vm.Page(id)), x, y);
        if x + 1 == NUM_COLS {
          LineFeed();
        } else {
          x := x + 1;
          view := view.(x := x);
        }
      }
    }

    /** The screen part of Backspace.  In the top left corner the row number, a byte, wraps around, and
        the cell to blank lies far behind the terminal's page; this stops before the store. */
    method StepBack() returns (inside: bool)
      requires Valid()
      modifies this, vm.phys
      ensures vm.Valid() && (inside <==> Pos(old(view)) > 0)
      ensures inside ==> Valid() && view == Erase(old(view), color)
      ensures !inside ==> 2 * (NUM_COLS * y + x) >= PAGES_SIZE && vm.Page(id) == old(vm.Page(id))
      ensures forall u :: 0 <= u < NUM_TERM && u != id ==> vm.Page(u) == old(vm.Page(u))
    {
      if x == 0 {
        x := NUM_COLS - 1;
        y := if y == 0 then 0xFF else y - 1;
      } else {
        x := x - 1;
      }
      inside := y < NUM_ROWS;
      if inside {
        vm.SetCell(id, NUM_COLS * y + x, SPACE, color);
        view := Screen(Cells(vm.Page(id)), x, y);
      }
    }

    method TermPuts(text: seq<byte>)
      requires Valid()
      modifies this, vm.phys
      ensures Valid() && view == PutAll(old(view), text, color)
      ensures forall u :: 0 <= u < NUM_TERM && u != id ==> vm.Page(u) == old(vm.Page(u))
    {
      var i := 0;
      while i < |text|
        invariant 0 <= i <= |text| && Valid()
        invariant PutAll(old(view), text, color) == PutAll(view, text[i..], color)
        invariant forall u :: 0 <= u < NUM_TERM && u != id ==> vm.Page(u) == old(vm.Page(u))
      {
        assert text[i..][0] == text[i] && text[i..][1..] == text[i + 1..];
        TermPutc(text[i]);
        i := i + 1;
      }
    }

    method TermClear()
      requires Valid()
      modifies this, vm.phys
      ensures Valid() && view == Cleared(color)
      ensures forall u :: 0 <= u < NUM_TERM && u != id ==> vm.Page(u) == old(vm.Page(u))
    {
      var i := 0;
      while i < CELLS
        invariant 0 <= i <= CELLS && vm.Valid()
        invariant Cells(vm.Page(id))[..i] == Blanks(i, color)
        invariant forall u :: 0 <= u < NUM_TERM && u != id ==> vm.Page(u) == old(vm.Page(u))
      {
        vm.SetCell(id, i, SPACE, color);
        i := i + 1;
      }
      x := 0;
      y := 0;
      view := Screen(Cells(vm.Page(id)), 0, 0);
      assert view.cells == Blanks(CELLS, color);
      TermPuts(PROMPT);
    }
  }
}
