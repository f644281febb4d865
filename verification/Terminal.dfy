/**
  One terminal as its user sees it: keys edit a line that is echoed on the screen, ENTER hands it
  to a reader, and the arrow keys bring back earlier lines.
 */
module Terminal {
  import opened Common
  import opened Screen
  import opened TextScreen
  import opened History

  const TAB_SIZE: nat := 3

  /** What the editing keys do to a line. */
  datatype Edit = Key(c: byte) | Tab | Back

  /** What a key buffer can hold.  Only the newline of an ENTER takes the last place. */
  predicate Held(line: seq<byte>) {
    |line| <= KEY_BUFF_SIZE && NUL !in line && (|line| == KEY_BUFF_SIZE ==> line[|line| - 1] == NEWLINE)
  }

  function Edited(line: seq<byte>, e: Edit): (r: seq<byte>)
    requires Held(line)
    ensures Held(r)
  {
    match e
    case Key(c) => if c != NUL && |line| + 1 < KEY_BUFF_SIZE then line + [c] else line
    case Tab => if |line| + TAB_SIZE < KEY_BUFF_SIZE then line + [SPACE, SPACE, SPACE] else line
    case Back => if line == [] then line else line[..|line| - 1]
  }

  /** The cursor can step back where the key needs it to. */
  predicate HasRoom(s: Screen, line: seq<byte>, e: Edit) {
    e.Back? && line != [] ==> Pos(s) > 0
  }

  /** What they do to the screen that echoes the line. */
  function EditedView(s: Screen, line: seq<byte>, e: Edit, color: byte): (r: Screen)
    requires IsScreen(s) && HasRoom(s, line, e)
    ensures IsScreen(r)
  {
    match e
    case Key(c) => if c != NUL && |line| + 1 < KEY_BUFF_SIZE then Put(s, c, color) else s
    case Tab => if |line| + TAB_SIZE < KEY_BUFF_SIZE then PutAll(s, [SPACE, SPACE, SPACE], color) else s
    case Back => if line == [] then s else Erase(s, color)
  }

  /** The key does not take back a newline, which the screen would take back as one cell. */
  predicate KeepsBreaks(line: seq<byte>, e: Edit) {
    e.Back? && line != [] ==> !BreaksLine(line[|line| - 1])
  }

  /** Echo and buffer stay in step. */
  lemma EditKeepsEcho(s: Screen, line: seq<byte>, e: Edit, color: byte)
    requires Held(line) && HasRoom(s, line, e) && Echoes(s, Tail(line)) && KeepsBreaks(line, e)
    ensures Echoes(EditedView(s, line, e, color), Tail(Edited(line, e)))
  {
    match e
    case Key(c) => if c != NUL && |line| + 1 < KEY_BUFF_SIZE { EchoNext(s, line, c, color); }
    case Tab => if |line| + TAB_SIZE < KEY_BUFF_SIZE { EchoPutAll(s, line, [SPACE, SPACE, SPACE], color); }
    case Back => BackKeepsEcho(s, line, color);
  }

  lemma BackKeepsEcho(s: Screen, line: seq<byte>, color: byte)
    requires Held(line) && HasRoom(s, line, Back) && Echoes(s, Tail(line)) && KeepsBreaks(line, Back)
    ensures Echoes(EditedView(s, line, Back, color), Tail(Edited(line, Back)))
  {
    if line != [] {
      var rest := line[..|line| - 1];
      EchoErase(s, Tail(line), color);
      assert Tail(line) == Tail(rest) + [line[|line| - 1]];
      assert Tail(line)[..|Tail(line)| - 1] == Tail(rest);
    }
  }

  /** The keys do not bring the cursor closer to the top left corner than the line is long, so a
      backspace has room. */
  lemma EditKeepsRoom(s: Screen, line: seq<byte>, e: Edit, color: byte)
    requires Held(line) && IsScreen(s) && |line| <= Pos(s)
    ensures |Edited(line, e)| <= Pos(EditedView(s, line, e, color))
  {
    if e.Tab? && |line| + TAB_SIZE < KEY_BUFF_SIZE {
      PutAllKeepsRoom(s, |line|, [SPACE, SPACE, SPACE], color);
    }
  }

  /** A tab is three spaces, or nothing where they do not all fit. */
  lemma TabIsThreeSpaces(s: Screen, line: seq<byte>, color: byte)
    requires Held(line) && IsScreen(s)
    ensures |line| + 3 >= 128 ==> Edited(line, Tab) == line && EditedView(s, line, Tab, color) == s
    ensures |line| + 3 < 128 ==>
      var line1, s1 := Edited(line, Key(32)), EditedView(s, line, Key(32), color);
      var line2, s2 := Edited(line1, Key(32)), EditedView(s1, line1, Key(32), color);
      && Edited(line, Tab) == Edited(line2, Key(32))
      && EditedView(s, line, Tab, color) == EditedView(s2, line2, Key(32), color)
  {
    if |line| + 3 < 128 {
      var spaces := [SPACE, SPACE, SPACE];
      PutRest(s, spaces, 0, color);
      PutRest(Put(s, SPACE, color), spaces, 1, color);
      PutRest(Put(Put(s, SPACE, color), SPACE, color), spaces, 2, color);
      NothingRests(Put(Put(Put(s, SPACE, color), SPACE, color), SPACE, color), spaces, color);
      assert spaces[0..] == spaces;
    }
  }

  /** A backspace takes back the last key, from the buffer and, unless the screen has scrolled, from the
      screen. */
  lemma BackUndoesKey(s: Screen, line: seq<byte>, c: byte, color: byte)
    requires Held(line) && IsScreen(s) && c != NUL && |line| < 127
    ensures Edited(Edited(line, Key(c)), Back) == line
    ensures c != 10 && c != 13 && Pos(s) + 1 < 2000 ==>
      var s' := EditedView(s, line, Key(c), color);
      && HasRoom(s', Edited(line, Key(c)), Back)
      && EditedView(s', Edited(line, Key(c)), Back, color) == s.(cells := s.cells[Pos(s) := Cell(32, color)])
  {
  }

  lemma PutKeepsRoom(s: Screen, n: nat, c: byte, color: byte)
    requires IsScreen(s) && n <= Pos(s) && n < KEY_BUFF_SIZE
    ensures n + 1 <= Pos(Put(s, c, color))
  {
  }

  lemma {:induction false} PutAllKeepsRoom(s: Screen, n: nat, text: seq<byte>, color: byte)
    requires IsScreen(s) && n <= Pos(s) && n + |text| <= KEY_BUFF_SIZE
    ensures n + |text| <= Pos(PutAll(s, text, color))
    decreases |text|
  {
    if text != [] {
      PutKeepsRoom(s, n, text[0], color);
      PutAllKeepsRoom(Put(s, text[0], color), n + 1, text[1..], color);
    }
  }

  lemma PutRest(s: Screen, text: seq<byte>, index: nat, color: byte)
    requires IsScreen(s) && index < |text|
    ensures PutAll(s, text[index..], color) == PutAll(Put(s, text[index], color), text[index + 1..], color)
    ensures text[..index + 1] == text[..index] + [text[index]]
  {
    assert text[index..][1..] == text[index + 1..];
  }

  lemma NothingRests(s: Screen, text: seq<byte>, color: byte)
    requires IsScreen(s)
    ensures PutAll(s, text[|text|..], color) == s && text[..|text|] == text && text[0..] == text
  {
  }

  /** Replacing the whole line by another one keeps echo and room. */
  lemma RetypeKeepsEcho(s: Screen, line: seq<byte>, text: seq<byte>, color: byte)
    requires Storable(text) && IsScreen(s) && |line| <= Pos(s)
    ensures Echoes(PutAll(EraseAll(s, |line|, color), text, color), Tail(text))
  {
    var s' := EraseAll(s, |line|, color);
    EchoPutAll(s', [], text, color);
    assert [] + text == text;
  }

  class Terminal {
    const screen: TextScreen
    const history: History
    const keyBuf: array<byte>
    var idx: nat
    var enterFlag: bool
    var readWanted: bool

    ghost predicate Ready()
      reads this, screen, screen.vm, screen.vm.pageTable, screen.vm.phys
    {
      && screen.Valid()
      && keyBuf.Length == KEY_BUFF_SIZE && idx <= KEY_BUFF_SIZE
      && keyBuf != history.hist && keyBuf != screen.vm.phys && history.hist != screen.vm.phys
    }

    /** What has been typed. */
    ghost function Line(): seq<byte>
      requires idx <= keyBuf.Length
      reads this, keyBuf
    {
      keyBuf[..idx]
    }

    /** ENTER counts only for a reader.  Between an ENTER and the read that takes its line, the buffer
        holds that line, its newline and whatever is typed in the meantime. */
    ghost predicate Valid()
      reads this, screen, screen.vm, screen.vm.pageTable, screen.vm.phys, keyBuf
    {
      Ready() && Held(Line()) && (enterFlag ==> readWanted)
    }

    /** The cells in front of the cursor spell what was typed since the last ENTER. */
    ghost predicate Echoed()
      requires idx <= keyBuf.Length
      reads this, screen, keyBuf
    {
      Echoes(screen.view, Tail(Line()))
    }

    /** The share of terminal_init that belongs to one terminal. */
    constructor (screen: TextScreen)
      requires screen.Valid() && Pos(screen.view) == 0
      ensures this.screen == screen && fresh(history) && fresh(history.hist) && fresh(keyBuf)
      ensures Valid() && Line() == [] && Echoed() && history.Valid() && history.lines == []
    {
      this.screen := screen;
      history := new History();
      keyBuf := new byte[KEY_BUFF_SIZE](i => NUL);
      idx, enterFlag, readWanted := 0, false, false;
    }

    /** Program output: appears at the cursor and leaves the line alone. */
    method Output(c: byte)
      requires Valid()
      modifies screen, screen.vm.phys
      ensures Valid() && screen.view == Put(old(screen.view), c, screen.color)
      ensures forall u :: 0 <= u < NUM_TERM && u != screen.id ==> screen.vm.Page(u) == old(screen.vm.Page(u))
    {
      screen.TermPutc(c);
    }

    /** Drops a character from buffer and screen.  With the cursor in the top left corner the screen has
        nothing to step back to, and the kernel writes outside the page (TextScreen.StepBack). */
    method Backspace() returns (inside: bool)
      requires Valid()
      modifies this`idx, keyBuf, screen, screen.vm.phys
      ensures inside == HasRoom(old(screen.view), old(Line()), Back)
      ensures inside ==>
        && Valid() && Line() == Edited(old(Line()), Back)
        && screen.view == EditedView(old(screen.view), old(Line()), Back, screen.color)
        && (old(Echoed()) && KeepsBreaks(old(Line()), Back) ==> Echoed())
      ensures forall u :: 0 <= u < NUM_TERM && u != screen.id ==> screen.vm.Page(u) == old(screen.vm.Page(u))
    {
      if old(Echoed()) && KeepsBreaks(Line(), Back) && HasRoom(screen.view, Line(), Back) {
        EditKeepsEcho(screen.view, Line(), Back, screen.color);
      }
      if idx == 0 {
        return true;
      }
      inside := screen.StepBack();
      if inside {
        keyBuf[idx - 1] := NUL;
        idx := idx - 1;
        assert Line() == old(Line())[..|old(Line())| - 1];
      }
    }

    method Append(c: byte)
      requires Ready() && idx < KEY_BUFF_SIZE
      modifies this`idx, keyBuf, screen, screen.vm.phys
      ensures Ready() && Line() == old(Line()) + [c]
      ensures screen.view == Put(old(screen.view), c, screen.color)
      ensures forall u :: 0 <= u < NUM_TERM && u != screen.id ==> screen.vm.Page(u) == old(screen.vm.Page(u))
    {
      keyBuf[idx] := c;
      idx := idx + 1;
      screen.TermPutc(c);
    }

    /** A key: codes from 128 on are releases. */
    method KeyPress(code: byte, key: byte)
      requires Valid()
      modifies this`idx, keyBuf, screen, screen.vm.phys
      ensures Valid()
      ensures code < KEY_BUFF_SIZE ==>
        && Line() == Edited(old(Line()), Key(key))
        && screen.view == EditedView(old(screen.view), old(Line()), Key(key), screen.color)
      ensures code >= KEY_BUFF_SIZE ==> Line() == old(Line()) && screen.view == old(screen.view)
      ensures old(Echoed()) ==> Echoed()
      ensures forall u :: 0 <= u < NUM_TERM && u != screen.id ==> screen.vm.Page(u) == old(screen.vm.Page(u))
    {
      if old(Echoed()) {
        EditKeepsEcho(screen.view, Line(), Key(key), screen.color);
      }
      if code < KEY_BUFF_SIZE {
        if idx < KEY_BUFF_SIZE - 1 {
          if key == NUL {
            return;
          }
          Append(key);
        }
      }
    }

    method TabPress()
      requires Valid()
      modifies this`idx, keyBuf, screen, screen.vm.phys
      ensures Valid()
      ensures Line() == Edited(old(Line()), Tab)
      ensures screen.view == EditedView(old(screen.view), old(Line()), Tab, screen.color)
      ensures old(Echoed()) ==> Echoed()
      ensures forall u :: 0 <= u < NUM_TERM && u != screen.id ==> screen.vm.Page(u) == old(screen.vm.Page(u))
    {
      if old(Echoed()) {
        EditKeepsEcho(screen.view, Line(), Tab, screen.color);
      }
      if idx + TAB_SIZE < KEY_BUFF_SIZE {
        AppendSpaces();
      }
    }

    method AppendSpaces()
      requires Ready() && idx + TAB_SIZE < KEY_BUFF_SIZE
      modifies this`idx, keyBuf, screen, screen.vm.phys
      ensures Ready() && Line() == old(Line()) + [SPACE, SPACE, SPACE]
      ensures screen.view == PutAll(old(screen.view), [SPACE, SPACE, SPACE], screen.color)
      ensures forall u :: 0 <= u < NUM_TERM && u != screen.id ==> screen.vm.Page(u) == old(screen.vm.Page(u))
    {
      var index := 0;
      ghost var spaces := [SPACE, SPACE, SPACE];
      while index < TAB_SIZE
        invariant 0 <= index <= TAB_SIZE && Ready()
        invariant idx == old(idx) + index && Line() == old(Line()) + spaces[..index]
        invariant PutAll(old(screen.view), spaces, screen.color) == PutAll(screen.view, spaces[index..], screen.color)
        invariant forall u :: 0 <= u < NUM_TERM && u != screen.id ==> screen.vm.Page(u) == old(screen.vm.Page(u))
      {
        assert spaces[index..][0] == SPACE && spaces[index..][1..] == spaces[index + 1..];
        Append(SPACE);
        index := index + 1;
      }
    }

    /** Ctrl-L.  It does not touch the line, so afterwards the cursor has room for it exactly when it
        is no longer than the prompt. */
    method ClearScreen()
      requires Valid()
      modifies screen, screen.vm.phys
      ensures Valid() && Line() == old(Line()) && screen.view == Cleared(screen.color)
      ensures |Line()| <= Pos(screen.view) <==> |Line()| <= |PROMPT|
      ensures forall u :: 0 <= u < NUM_TERM && u != screen.id ==> screen.vm.Page(u) == old(screen.vm.Page(u))
    {
      screen.TermClear();
      ClearedPos(screen.color);
    }

    method ClearKeyBuf()
      requires keyBuf.Length == KEY_BUFF_SIZE
      modifies this`idx, keyBuf
      ensures idx == 0
      ensures forall k :: 0 <= k < KEY_BUFF_SIZE ==> keyBuf[k] == NUL
    {
      var index := 0;
      while index < KEY_BUFF_SIZE
        invariant 0 <= index <= KEY_BUFF_SIZE
        invariant forall k :: 0 <= k < index ==> keyBuf[k] == NUL
      {
        keyBuf[index] := NUL;
        index := index + 1;
      }
      idx := 0;
    }

    /** Enter of lib.c: the cursor goes to the next line; without a reader the line is dropped. */
    method Enter()
      requires Ready()
      modifies this`idx, this`enterFlag, keyBuf, screen, screen.vm.phys
      ensures Ready() && screen.view == NewLine(old(screen.view), screen.color)
      ensures if readWanted then Line() == old(Line()) && enterFlag == old(enterFlag)
              else Line() == [] && !enterFlag
      ensures forall u :: 0 <= u < NUM_TERM && u != screen.id ==> screen.vm.Page(u) == old(screen.vm.Page(u))
    {
      screen.LineFeed();
      if readWanted {
        return;
      }
      ClearKeyBuf();
      enterFlag := false;
    }

    /** The ENTER key.  When the buffer is full, the newline would be written behind its end; C leaves
        open what follows, and this stops before the store. */
    method EnterPress() returns (inside: bool)
      requires Valid() && history.Valid()
      modifies this`idx, this`enterFlag, keyBuf, screen, screen.vm.phys, history, history.hist
      ensures Valid() && history.Valid() && inside == (|old(Line())| < KEY_BUFF_SIZE)
      ensures inside ==>
        && enterFlag == readWanted
        && Line() == (if readWanted then old(Line()) + [NEWLINE] else [])
        && screen.view == NewLine(old(screen.view), screen.color) && Echoed()
        && history.lines == old(history.lines) + [old(Line())] && history.histChk == 0
      ensures !inside ==>
        && enterFlag == old(enterFlag) && Line() == old(Line()) && screen.view == old(screen.view)
        && history.lines == old(history.lines) && history.histChk == old(history.histChk)
      ensures forall u :: 0 <= u < NUM_TERM && u != screen.id ==> screen.vm.Page(u) == old(screen.vm.Page(u))
    {
      inside := idx < KEY_BUFF_SIZE;
      if inside {
        EnterInside();
      }
    }

    method EnterInside()
      requires Valid() && history.Valid() && idx < KEY_BUFF_SIZE
      modifies this`idx, this`enterFlag, keyBuf, screen, screen.vm.phys, history, history.hist
      ensures Valid() && history.Valid()
      ensures enterFlag == readWanted
      ensures Line() == if readWanted then old(Line()) + [NEWLINE] else []
      ensures screen.view == NewLine(old(screen.view), screen.color) && Echoed()
      ensures history.lines == old(history.lines) + [old(Line())] && history.histChk == 0
      ensures forall u :: 0 <= u < NUM_TERM && u != screen.id ==> screen.vm.Page(u) == old(screen.vm.Page(u))
    {
      TailAppend(Line(), NEWLINE);
      EndLine();
      Enter();
    }

    /** The ENTER key, before the cursor moves: the line gets its newline and goes into the history. */
    method EndLine()
      requires Ready() && history.Valid() && Storable(Line())
      modifies this`idx, this`enterFlag, keyBuf, history, history.hist
      ensures Ready() && history.Valid()
      ensures enterFlag && idx == old(idx) + 1 && Line() == old(Line()) + [NEWLINE]
      ensures history.lines == old(history.lines) + [old(Line())] && history.histChk == 0
    {
      ghost var line := Line();
      enterFlag := true;
      keyBuf[idx] := NEWLINE;
      idx := idx + 1;
      assert keyBuf[..idx - 1] == line;
      history.Push(keyBuf, idx - 1);
    }

    /** The arrow keys: step through the history and retype the line found there, if the cursor has room
        to erase what stands in the buffer. */
    method TerminalHistory(direction: int) returns (inside: bool)
      requires Valid() && history.Valid()
      modifies this`idx, keyBuf, screen, screen.vm.phys, history
      ensures history.Valid() && history.lines == old(history.lines)
      ensures inside == (CanRecall(old(history.lines), old(history.histChk), direction) ==>
                           |old(Line())| <= Pos(old(screen.view)))
      ensures inside ==> Valid()
      ensures inside && CanRecall(old(history.lines), old(history.histChk), direction) ==>
        && history.histChk == old(history.histChk) - direction <= Reach(history.lines)
        && Line() == RecalledLine(history.lines, history.histChk)
        && screen.view == PutAll(EraseAll(old(screen.view), |old(Line())|, screen.color), Line(), screen.color)
        && Echoed()
      ensures !CanRecall(old(history.lines), old(history.histChk), direction) ==>
        history.histChk == old(history.histChk) && Line() == old(Line()) && screen.view == old(screen.view)
      ensures forall u :: 0 <= u < NUM_TERM && u != screen.id ==> screen.vm.Page(u) == old(screen.vm.Page(u))
    {
      inside := true;
      var moved := history.Step(direction);
      if moved {
        inside := Replace();
      }
    }

    /** Replaces the line by the row the history pointer stands at. */
    method Replace() returns (inside: bool)
      requires Valid() && history.Valid()
      requires history.histPtr < MAX_HIST && Storable(history.texts[history.histPtr])
      modifies this`idx, keyBuf, screen, screen.vm.phys
      ensures history.Valid() && inside == (|old(Line())| <= Pos(old(screen.view)))
      ensures inside ==>
        && Valid() && Line() == history.texts[history.histPtr]
        && screen.view == PutAll(EraseAll(old(screen.view), |old(Line())|, screen.color), Line(), screen.color)
        && Echoed()
      ensures forall u :: 0 <= u < NUM_TERM && u != screen.id ==> screen.vm.Page(u) == old(screen.vm.Page(u))
    {
      if |Line()| <= Pos(screen.view) {
        RetypeKeepsEcho(screen.view, Line(), history.texts[history.histPtr], screen.color);
      }
      inside := EraseLine();
      if inside {
        Retype();
      }
    }

    method EraseLine() returns (inside: bool)
      requires Valid()
      modifies this`idx, keyBuf, screen, screen.vm.phys
      ensures inside == (|old(Line())| <= Pos(old(screen.view)))
      ensures inside ==> Valid() && idx == 0 && screen.view == EraseAll(old(screen.view), |old(Line())|, screen.color)
      ensures forall u :: 0 <= u < NUM_TERM && u != screen.id ==> screen.vm.Page(u) == old(screen.vm.Page(u))
    {
      ghost var n, room := idx, Pos(screen.view);
      inside := true;
      while idx != 0
        invariant inside && Valid() && Pos(screen.view) + n == room + idx
        invariant n <= room ==>
          EraseAll(old(screen.view), n, screen.color) == EraseAll(screen.view, idx, screen.color)
        invariant forall u :: 0 <= u < NUM_TERM && u != screen.id ==> screen.vm.Page(u) == old(screen.vm.Page(u))
        decreases idx
      {
        inside := EraseOne();
        if !inside {
          return;
        }
      }
    }

    method EraseOne() returns (inside: bool)
      requires Valid() && idx > 0
      modifies this`idx, keyBuf, screen, screen.vm.phys
      ensures inside == (Pos(old(screen.view)) > 0)
      ensures inside ==> Valid() && idx == old(idx) - 1 && screen.view == Erase(old(screen.view), screen.color)
      ensures forall u :: 0 <= u < NUM_TERM && u != screen.id ==> screen.vm.Page(u) == old(screen.vm.Page(u))
    {
      inside := Backspace();
    }

    /** Copies the row the history pointer stands at into the buffer and echoes it. */
    method Retype()
      requires Valid() && idx == 0 && history.Valid()
      requires history.histPtr < MAX_HIST && Storable(history.texts[history.histPtr])
      modifies this`idx, keyBuf, screen, screen.vm.phys
      ensures Valid()
      ensures Line() == history.texts[history.histPtr]
      ensures screen.view == PutAll(old(screen.view), Line(), screen.color)
      ensures forall u :: 0 <= u < NUM_TERM && u != screen.id ==> screen.vm.Page(u) == old(screen.vm.Page(u))
    {
      RetypeRow();
    }

    method RetypeRow()
      requires Ready() && idx == 0 && history.Valid()
      requires history.histPtr < MAX_HIST && Storable(history.texts[history.histPtr])
      modifies this`idx, keyBuf, screen, screen.vm.phys
      ensures Ready() && Line() == history.texts[history.histPtr]
      ensures screen.view == PutAll(old(screen.view), history.texts[history.histPtr], screen.color)
      ensures forall u :: 0 <= u < NUM_TERM && u != screen.id ==> screen.vm.Page(u) == old(screen.vm.Page(u))
    {
      ghost var text := history.texts[history.histPtr];
      var index := 0;
      while index < KEY_BUFF_SIZE
        invariant 0 <= index <= |text| && Ready() && history.Valid() && idx == index
        invariant Line() == text[..index]
        invariant PutAll(old(screen.view), text, screen.color) == PutAll(screen.view, text[index..], screen.color)
        invariant forall u :: 0 <= u < NUM_TERM && u != screen.id ==> screen.vm.Page(u) == old(screen.vm.Page(u))
      {
        if index < |text| {
          PutRest(screen.view, text, index, screen.color);
        }
        var c := RetypeOne(index);
        if c == NUL {
          break;
        }
        index := index + 1;
      }
      NothingRests(screen.view, text, screen.color);
    }

    method RetypeOne(index: nat) returns (c: byte)
      requires Ready() && idx == index < KEY_BUFF_SIZE && history.Valid()
      requires history.histPtr < MAX_HIST && Storable(history.texts[history.histPtr])
      requires index <= |history.texts[history.histPtr]|
      modifies this`idx, keyBuf, screen, screen.vm.phys
      ensures Ready() && history.Valid()
      ensures c == NUL <==> index == |history.texts[history.histPtr]|
      ensures if c == NUL then Line() == old(Line()) && screen.view == old(screen.view)
              else c == history.texts[history.histPtr][index] && Line() == old(Line()) + [c]
                   && screen.view == Put(old(screen.view), c, screen.color)
      ensures forall u :: 0 <= u < NUM_TERM && u != screen.id ==> screen.vm.Page(u) == old(screen.vm.Page(u))
    {
      c := history.Byte(index);
      keyBuf[index] := c;
      if c == NUL {
        return;
      }
      screen.TermPutc(c);
      idx := idx + 1;
    }

    /** The start of terminal_read: a reader announces itself, even if its request is refused. */
    method BeginRead(nbytes: int) returns (ret: int)
      modifies this`readWanted
      ensures readWanted && ret == if nbytes < 0 then -1 else 0
    {
      readWanted := true;
      ret := if nbytes < 0 then -1 else 0;
    }

    /** The rest of terminal_read, once the ENTER it waits for has come. */
    method FinishRead(buf: array<byte>, nbytes: nat) returns (index: nat)
      requires Valid() && enterFlag && nbytes <= buf.Length
      requires buf != keyBuf && buf != screen.vm.phys
      modifies this`idx, this`enterFlag, this`readWanted, keyBuf, buf
      ensures Valid() && Line() == [] && !enterFlag && !readWanted
      ensures index == Min(nbytes, |old(Line())|)
      ensures buf[..] == Splice(old(buf[..]), 0, old(Line())[..index])
    {
      var limit := KEY_BUFF_SIZE;
      if nbytes < limit {
        limit := nbytes;
      }
      if limit > idx {
        limit := idx;
      }
      CopyOut(buf, limit);
      index := limit;
      enterFlag := false;
      ClearKeyBuf();
      readWanted := false;
    }

    method CopyOut(buf: array<byte>, limit: nat)
      requires limit <= keyBuf.Length && limit <= buf.Length && buf != keyBuf
      modifies buf
      ensures buf[..] == Splice(old(buf[..]), 0, keyBuf[..limit])
    {
      ghost var line := keyBuf[..];
      assert Splice(buf[..], 0, []) == buf[..];
      var index := 0;
      while index < limit
        invariant 0 <= index <= limit && keyBuf[..] == line
        invariant buf[..] == Splice(old(buf[..]), 0, line[..index])
      {
        SpliceStep(old(buf[..]), 0, line[..index], line[index]);
        buf[index] := keyBuf[index];
        assert line[..index + 1] == line[..index] + [line[index]];
        index := index + 1;
      }
      assert line[..limit] == keyBuf[..limit];
    }
  }
}
