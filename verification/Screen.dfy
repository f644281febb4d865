/**
  A text screen of 25 rows and 80 columns as a value, and the unbounded transcript it is a
  window of.
 */
module Screen {
  import opened Common

  const NUM_COLS: nat := 80
  const NUM_ROWS: nat := 25
  const CELLS: nat := NUM_COLS * NUM_ROWS

  datatype Cell = Cell(ch: byte, attr: byte)

  datatype Screen = Screen(cells: seq<Cell>, x: nat, y: nat)

  predicate IsScreen(s: Screen) {
    |s.cells| == CELLS && s.x < NUM_COLS && s.y < NUM_ROWS
  }

  /** Linear position of the cursor. */
  function Pos(s: Screen): nat {
    NUM_COLS * s.y + s.x
  }

  function Blank(color: byte): Cell {
    Cell(SPACE, color)
  }

  function Blanks(n: nat, color: byte): (b: seq<Cell>)
    ensures |b| == n && forall i :: 0 <= i < n ==> b[i] == Blank(color)
  {
    seq(n, i => Blank(color))
  }

  predicate BreaksLine(c: byte) {
    c == NEWLINE || c == CARRIAGE_RETURN
  }

  // ---------- what the console routines do to a screen ----------

  function Scrolled(s: Screen, color: byte): (r: Screen)
    requires |s.cells| == CELLS
    ensures IsScreen(r)
  {
    Screen(s.cells[NUM_COLS..] + Blanks(NUM_COLS, color), 0, NUM_ROWS - 1)
  }

  function NewLine(s: Screen, color: byte): (r: Screen)
    requires IsScreen(s)
    ensures IsScreen(r)
  {
    if s.y + 1 == NUM_ROWS then Scrolled(s, color) else s.(x := 0, y := s.y + 1)
  }

  function Put(s: Screen, c: byte, color: byte): (r: Screen)
    requires IsScreen(s)
    ensures IsScreen(r)
  {
    if BreaksLine(c) then NewLine(s, color)
    else
      var s' := s.(cells := s.cells[Pos(s) := Cell(c, color)]);
      if s.x + 1 < NUM_COLS then s'.(x := s.x + 1) else NewLine(s', color)
  }

  /** Defined where the cursor has room to step back. */
  function Erase(s: Screen, color: byte): (r: Screen)
    requires IsScreen(s) && Pos(s) > 0
    ensures IsScreen(r)
  {
    var s' := if s.x == 0 then s.(x := NUM_COLS - 1, y := s.y - 1) else s.(x := s.x - 1);
    s'.(cells := s.cells[Pos(s') := Blank(color)])
  }

  function PutAll(s: Screen, text: seq<byte>, color: byte): (r: Screen)
    requires IsScreen(s)
    ensures IsScreen(r)
    decreases |text|
  {
    if text == [] then s else PutAll(Put(s, text[0], color), text[1..], color)
  }

  function EraseAll(s: Screen, n: nat, color: byte): (r: Screen)
    requires IsScreen(s) && Pos(s) >= n
    ensures IsScreen(r) && Pos(r) == Pos(s) - n
    decreases n
  {
    if n == 0 then s else EraseAll(Erase(s, color), n - 1, color)
  }

  // "391OS> "
  const PROMPT: seq<byte> := [51, 57, 49, 79, 83, 62, 32]

  function Cleared(color: byte): (r: Screen)
    ensures IsScreen(r)
  {
    PutAll(Screen(Blanks(CELLS, color), 0, 0), PROMPT, color)
  }

  lemma ClearedPos(color: byte)
    ensures Pos(Cleared(color)) == |PROMPT| && Cleared(color).y == 0
  {
    PutAllOnRow(Screen(Blanks(CELLS, color), 0, 0), PROMPT, color);
  }

  lemma {:induction false} PutAllOnRow(s: Screen, text: seq<byte>, color: byte)
    requires IsScreen(s) && s.x + |text| < NUM_COLS
    requires forall k :: 0 <= k < |text| ==> !BreaksLine(text[k])
    ensures PutAll(s, text, color).y == s.y && PutAll(s, text, color).x == s.x + |text|
    decreases |text|
  {
    if text != [] {
      PutAllOnRow(Put(s, text[0], color), text[1..], color);
    }
  }

  /** Every byte but 10 and 13 is a character: it takes the place of the cursor, which goes to the next
      place in reading order; behind the last one everything moves up by one row of 80, and the last row
      is blank.  10 and 13 write nothing and go to the next row. */
  lemma PutIs(s: Screen, c: byte, color: byte)
    requires IsScreen(s)
    ensures |s.cells| == 2000 && Pos(s) == 80 * s.y + s.x < 2000
    ensures var to := if c == 10 || c == 13 then 80 * (s.y + 1) else Pos(s) + 1;
            var cells := if c == 10 || c == 13 then s.cells else s.cells[Pos(s) := Cell(c, color)];
      Put(s, c, color) ==
        if to < 2000 then Screen(cells, to % 80, to / 80)
        else Screen(cells[80..] + seq(80, i => Cell(32, color)), 0, 24)
  {
    assert Blanks(NUM_COLS, color) == seq(80, i => Cell(32, color));
    if s.x + 1 < NUM_COLS {
      assert (80 * s.y + s.x + 1) % 80 == s.x + 1 && (80 * s.y + s.x + 1) / 80 == s.y;
    }
    assert (80 * (s.y + 1)) % 80 == 0 && (80 * (s.y + 1)) / 80 == s.y + 1;
  }

  /** A cleared screen is blank but for the prompt "391OS> ". */
  lemma ClearedIs(color: byte)
    ensures Cleared(color) ==
              Screen(seq(2000, i requires 0 <= i =>
                       Cell(if i < 7 then "391OS> "[i] as byte else 32, color)), 7, 0)
  {
  }

  // ---------- transcripts ----------

  /** Everything ever written, as one line of cells that only grows; the cursor is a position. */
  datatype Transcript = Transcript(cells: seq<Cell>, pos: nat)

  /** Where the visible part starts. */
  function Base(t: Transcript): int {
    |t.cells| - CELLS
  }

  predicate IsTranscript(t: Transcript) {
    |t.cells| % NUM_COLS == 0 && 0 <= Base(t) <= t.pos < |t.cells|
  }

  function Window(t: Transcript): (s: Screen)
    requires IsTranscript(t)
    ensures IsScreen(s)
  {
    Screen(t.cells[Base(t)..], (t.pos - Base(t)) % NUM_COLS, (t.pos - Base(t)) / NUM_COLS)
  }

  /** Move to a position; one row is added when it lies just behind the last. */
  function MovedTo(t: Transcript, pos: nat, color: byte): Transcript {
    Transcript(if pos == |t.cells| then t.cells + Blanks(NUM_COLS, color) else t.cells, pos)
  }

  datatype Op = PutOp(c: byte) | EraseOp | ClearOp

  predicate Allowed(s: Screen, op: Op)
    requires IsScreen(s)
  {
    op.EraseOp? ==> Pos(s) > 0
  }

  function ScreenStep(s: Screen, op: Op, color: byte): (r: Screen)
    requires IsScreen(s) && Allowed(s, op)
    ensures IsScreen(r)
  {
    match op
    case PutOp(c) => Put(s, c, color)
    case EraseOp => Erase(s, color)
    case ClearOp => Cleared(color)
  }

  function WritePut(t: Transcript, c: byte, color: byte): (r: Transcript)
    requires IsTranscript(t)
    ensures IsTranscript(r)
  {
    if BreaksLine(c) then MovedTo(t, (t.pos / NUM_COLS + 1) * NUM_COLS, color)
    else MovedTo(t.(cells := t.cells[t.pos := Cell(c, color)]), t.pos + 1, color)
  }

  function WriteErase(t: Transcript, color: byte): (r: Transcript)
    requires IsTranscript(t) && t.pos > Base(t)
    ensures IsTranscript(r)
  {
    Transcript(t.cells[t.pos - 1 := Blank(color)], t.pos - 1)
  }

  function WriteAll(t: Transcript, text: seq<byte>, color: byte): (r: Transcript)
    requires IsTranscript(t)
    ensures IsTranscript(r)
    decreases |text|
  {
    if text == [] then t else WriteAll(WritePut(t, text[0], color), text[1..], color)
  }

  function WriteClear(t: Transcript, color: byte): (r: Transcript)
    requires IsTranscript(t)
    ensures IsTranscript(r)
  {
    WriteAll(Transcript(t.cells[..Base(t)] + Blanks(CELLS, color), Base(t)), PROMPT, color)
  }

  function TranscriptStep(t: Transcript, op: Op, color: byte): (r: Transcript)
    requires IsTranscript(t) && Allowed(Window(t), op)
    ensures IsTranscript(r)
  {
    match op
    case PutOp(c) => WritePut(t, c, color)
    case EraseOp => WriteErase(t, color)
    case ClearOp => WriteClear(t, color)
  }

  lemma NewLineIsWindow(t: Transcript, color: byte)
    requires IsTranscript(t)
    ensures Window(MovedTo(t, (t.pos / NUM_COLS + 1) * NUM_COLS, color)) == NewLine(Window(t), color)
  {
    var r := MovedTo(t, (t.pos / NUM_COLS + 1) * NUM_COLS, color);
    assert Window(r).cells == NewLine(Window(t), color).cells;
  }

  lemma CharIsWindow(t: Transcript, cell: Cell)
    requires IsTranscript(t)
    ensures Window(t.(cells := t.cells[t.pos := cell])) ==
              Window(t).(cells := Window(t).cells[Pos(Window(t)) := cell])
  {
    assert t.cells[t.pos := cell][Base(t)..] == t.cells[Base(t)..][t.pos - Base(t) := cell];
  }

  lemma StepIsColumn(t: Transcript, color: byte)
    requires IsTranscript(t)
    ensures Window(t).x == t.pos % NUM_COLS
    ensures t.pos % NUM_COLS + 1 < NUM_COLS ==>
              Window(MovedTo(t, t.pos + 1, color)) == Window(t).(x := Window(t).x + 1)
    ensures t.pos % NUM_COLS + 1 == NUM_COLS ==> (t.pos / NUM_COLS + 1) * NUM_COLS == t.pos + 1
  {
  }

  lemma PutIsWindow(t: Transcript, c: byte, color: byte)
    requires IsTranscript(t)
    ensures Window(WritePut(t, c, color)) == Put(Window(t), c, color)
  {
    if BreaksLine(c) {
      NewLineIsWindow(t, color);
    } else {
      var t' := t.(cells := t.cells[t.pos := Cell(c, color)]);
      assert WritePut(t, c, color) == MovedTo(t', t'.pos + 1, color);
      CharIsWindow(t, Cell(c, color));
      StepIsColumn(t', color);
      NewLineIsWindow(t', color);
    }
  }

  lemma EraseIsWindow(t: Transcript, color: byte)
    requires IsTranscript(t) && t.pos > Base(t)
    ensures Window(WriteErase(t, color)) == Erase(Window(t), color)
  {
    assert Window(WriteErase(t, color)).cells == Erase(Window(t), color).cells;
  }

  lemma {:induction false} PutAllIsWindow(t: Transcript, text: seq<byte>, color: byte)
    requires IsTranscript(t)
    ensures Window(WriteAll(t, text, color)) == PutAll(Window(t), text, color)
    decreases |text|
  {
    if text != [] {
      PutIsWindow(t, text[0], color);
      PutAllIsWindow(WritePut(t, text[0], color), text[1..], color);
    }
  }

  lemma StepIsWindow(t: Transcript, op: Op, color: byte)
    requires IsTranscript(t) && Allowed(Window(t), op)
    ensures Window(TranscriptStep(t, op, color)) == ScreenStep(Window(t), op, color)
  {
    match op
    case PutOp(c) => PutIsWindow(t, c, color);
    case EraseOp => EraseIsWindow(t, color);
    case ClearOp =>
      var start := Transcript(t.cells[..Base(t)] + Blanks(CELLS, color), Base(t));
      assert Window(start) == Screen(Blanks(CELLS, color), 0, 0);
      PutAllIsWindow(start, PROMPT, color);
  }

  // ---------- runs ----------

  predicate AllAllowed(s: Screen, ops: seq<Op>, color: byte)
    requires IsScreen(s)
    decreases |ops|
  {
    ops == [] || (Allowed(s, ops[0]) && AllAllowed(ScreenStep(s, ops[0], color), ops[1..], color))
  }

  function ScreenRun(s: Screen, ops: seq<Op>, color: byte): (r: Screen)
    requires IsScreen(s) && AllAllowed(s, ops, color)
    ensures IsScreen(r)
    decreases |ops|
  {
    if ops == [] then s else ScreenRun(ScreenStep(s, ops[0], color), ops[1..], color)
  }

  /** The transcript a run leaves. */
  ghost function TranscriptRun(t: Transcript, ops: seq<Op>, color: byte): (r: Transcript)
    requires IsTranscript(t) && AllAllowed(Window(t), ops, color)
    ensures IsTranscript(r)
    decreases |ops|
  {
    if ops == [] then t
    else
      StepIsWindow(t, ops[0], color);
      TranscriptRun(TranscriptStep(t, ops[0], color), ops[1..], color)
  }

  lemma {:induction false} WriteAllKeepsPast(t: Transcript, text: seq<byte>, color: byte)
    requires IsTranscript(t)
    ensures Base(t) <= Base(WriteAll(t, text, color))
    ensures WriteAll(t, text, color).cells[..Base(t)] == t.cells[..Base(t)]
    decreases |text|
  {
    if text != [] {
      var t' := WritePut(t, text[0], color);
      WriteAllKeepsPast(t', text[1..], color);
      assert WriteAll(t, text, color).cells[..Base(t)] == WriteAll(t, text, color).cells[..Base(t')][..Base(t)];
    }
  }

  lemma StepKeepsPast(t: Transcript, op: Op, color: byte)
    requires IsTranscript(t) && Allowed(Window(t), op)
    ensures Base(t) <= Base(TranscriptStep(t, op, color))
    ensures TranscriptStep(t, op, color).cells[..Base(t)] == t.cells[..Base(t)]
  {
    if op.ClearOp? {
      WriteAllKeepsPast(Transcript(t.cells[..Base(t)] + Blanks(CELLS, color), Base(t)), PROMPT, color);
    }
  }

  /** After any run the screen is the last 25 rows of the transcript, with the cursor where the
      transcript has it; the window only moves down, and rows above it never change again. */
  lemma {:induction false} ScreenIsWindowOfTranscript(t: Transcript, ops: seq<Op>, color: byte)
    requires IsTranscript(t) && AllAllowed(Window(t), ops, color)
    ensures Window(TranscriptRun(t, ops, color)) == ScreenRun(Window(t), ops, color)
    ensures Pos(ScreenRun(Window(t), ops, color)) ==
              TranscriptRun(t, ops, color).pos - Base(TranscriptRun(t, ops, color))
    ensures Base(t) <= Base(TranscriptRun(t, ops, color))
    ensures TranscriptRun(t, ops, color).cells[..Base(t)] == t.cells[..Base(t)]
    decreases |ops|
  {
    if ops != [] {
      StepIsWindow(t, ops[0], color);
      StepKeepsPast(t, ops[0], color);
      var t' := TranscriptStep(t, ops[0], color);
      ScreenIsWindowOfTranscript(t', ops[1..], color);
      var r := TranscriptRun(t', ops[1..], color);
      assert r.cells[..Base(t)] == r.cells[..Base(t')][..Base(t)];
    }
  }

  // ---------- echo ----------

  /** The part of a text behind its last line break. */
  function Tail(text: seq<byte>): (r: seq<byte>)
    ensures |r| <= |text|
    ensures forall k :: 0 <= k < |r| ==> !BreaksLine(r[k])
  {
    if text == [] || BreaksLine(text[|text| - 1]) then []
    else Tail(text[..|text| - 1]) + [text[|text| - 1]]
  }

  lemma TailAppend(text: seq<byte>, c: byte)
    ensures Tail(text + [c]) == if BreaksLine(c) then [] else Tail(text) + [c]
  {
    assert (text + [c])[..|text|] == text;
  }

  lemma {:induction false} TailOfUnbroken(text: seq<byte>)
    requires forall k :: 0 <= k < |text| ==> !BreaksLine(text[k])
    ensures Tail(text) == text
  {
    if text != [] {
      TailOfUnbroken(text[..|text| - 1]);
    }
  }

  /** The cells in front of the cursor spell the text. */
  ghost predicate Echoes(s: Screen, text: seq<byte>) {
    && IsScreen(s) && |text| <= Pos(s)
    && forall i :: 0 <= i < |text| ==> s.cells[Pos(s) - |text| + i].ch == text[i]
  }

  lemma EchoPut(s: Screen, text: seq<byte>, c: byte, color: byte)
    requires Echoes(s, text) && |text| < KEY_BUFF_SIZE && !BreaksLine(c)
    ensures Echoes(Put(s, c, color), text + [c])
  {
    var r, p := Put(s, c, color), Pos(s);
    assert Pos(r) == p + 1 || (p + 1 == CELLS && Pos(r) == p + 1 - NUM_COLS);
    forall i | 0 <= i < |text| ensures r.cells[Pos(r) - |text| - 1 + i].ch == text[i] {
      assert s.cells[p - |text| + i].ch == text[i];
    }
  }

  /** One more character, line breaks included. */
  lemma EchoNext(s: Screen, line: seq<byte>, c: byte, color: byte)
    requires Echoes(s, Tail(line)) && |line| < KEY_BUFF_SIZE
    ensures Echoes(Put(s, c, color), Tail(line + [c]))
  {
    TailAppend(line, c);
    if !BreaksLine(c) {
      EchoPut(s, Tail(line), c, color);
    }
  }

  lemma EchoErase(s: Screen, text: seq<byte>, color: byte)
    requires Echoes(s, text) && text != []
    ensures Echoes(Erase(s, color), text[..|text| - 1])
  {
    var r := Erase(s, color);
    assert Pos(r) == Pos(s) - 1;
  }

  lemma {:induction false} EchoPutAll(s: Screen, line: seq<byte>, text: seq<byte>, color: byte)
    requires Echoes(s, Tail(line)) && |line| + |text| <= KEY_BUFF_SIZE
    ensures Echoes(PutAll(s, text, color), Tail(line + text))
    decreases |text|
  {
    if text == [] {
      assert line + text == line;
    } else {
      EchoNext(s, line, text[0], color);
      EchoPutAll(Put(s, text[0], color), line + [text[0]], text[1..], color);
      assert line + [text[0]] + text[1..] == line + text;
    }
  }

  /** Erasing what was just typed restores the transcript up to one blanked cell and possibly one
      more blank row at the end. */
  lemma EraseUndoesPut(t: Transcript, c: byte, color: byte)
    requires IsTranscript(t) && !BreaksLine(c)
    ensures var r := WritePut(t, c, color);
      && r.pos > Base(r)
      && WriteErase(r, color).pos == t.pos
      && WriteErase(r, color).cells ==
           t.cells[t.pos := Blank(color)] + Blanks(if t.pos + 1 == |t.cells| then NUM_COLS else 0, color)
  {
  }
}
