/**
  What a user and a reading program see of a terminal over whole lines: the keys are interpreted on
  lists, ENTER hands a line to the reader, and the history gives it back.
 */
module Sessions {
  import opened Common
  import opened Screen
  import opened History
  import opened Terminal

  /** What can happen to a terminal: a key that edits the line, an arrow key, up (-1) or down (1), ENTER,
      Ctrl-L, or output of a program. */
  datatype Stroke = Edits(e: Edit) | Arrow(direction: int) | Enter | Clear | Output(c: byte)

  /** The text in the buffer, how far back in the history the user has gone, all lines entered so far,
      whether a reader has announced itself, whether an ENTER has come for it, and the screen with the
      colour of its terminal. */
  datatype Editing = Editing(line: seq<byte>, back: nat, lines: seq<seq<byte>>, wanted: bool, entered: bool,
                             view: Screen, color: byte)

  predicate IsEditing(ed: Editing) {
    && Held(ed.line) && ed.back <= Reach(ed.lines)
    && (forall i :: 0 <= i < |ed.lines| ==> Storable(ed.lines[i]))
    && (ed.entered ==> ed.wanted) && IsScreen(ed.view)
  }

  /** The cursor can step back over the whole buffer. */
  predicate Roomy(ed: Editing) {
    |ed.line| <= Pos(ed.view)
  }

  /** ENTER needs a place for its newline; a backspace, and an arrow key that finds a line, need room on
      the screen to erase. */
  predicate Possible(ed: Editing, s: Stroke) {
    match s
    case Edits(e) => HasRoom(ed.view, ed.line, e)
    case Arrow(direction) => CanRecall(ed.lines, ed.back, direction) ==> Roomy(ed)
    case Enter => |ed.line| < KEY_BUFF_SIZE
    case Clear => true
    case Output(_) => true
  }

  /** Going one line further back, or forth. */
  function Recalls(ed: Editing, direction: int): (r: Editing)
    requires IsEditing(ed) && Possible(ed, Arrow(direction))
    ensures IsEditing(r)
  {
    if CanRecall(ed.lines, ed.back, direction) then
      var line := RecalledLine(ed.lines, ed.back - direction);
      ed.(line := line, back := ed.back - direction,
          view := PutAll(EraseAll(ed.view, |ed.line|, ed.color), line, ed.color))
    else ed
  }

  function Entered(ed: Editing): (r: Editing)
    requires IsEditing(ed) && Possible(ed, Enter)
    ensures IsEditing(r)
  {
    Editing(if ed.wanted then ed.line + [NEWLINE] else [], 0, ed.lines + [ed.line], ed.wanted, ed.wanted,
            NewLine(ed.view, ed.color), ed.color)
  }

  function Struck(ed: Editing, s: Stroke): (r: Editing)
    requires IsEditing(ed) && Possible(ed, s)
    ensures IsEditing(r)
  {
    match s
    case Edits(e) => ed.(line := Edited(ed.line, e), view := EditedView(ed.view, ed.line, e, ed.color))
    case Arrow(direction) => Recalls(ed, direction)
    case Enter => Entered(ed)
    case Clear => ed.(view := Cleared(ed.color))
    case Output(c) => ed.(view := Put(ed.view, c, ed.color))
  }

  predicate AllPossible(ed: Editing, ss: seq<Stroke>)
    requires IsEditing(ed)
    decreases |ss|
  {
    ss != [] ==> Possible(ed, ss[0]) && AllPossible(Struck(ed, ss[0]), ss[1..])
  }

  /** What a sequence of strokes leads to. */
  function Typed(ed: Editing, ss: seq<Stroke>): (r: Editing)
    requires IsEditing(ed) && AllPossible(ed, ss)
    ensures IsEditing(r)
    decreases |ss|
  {
    if ss == [] then ed else Typed(Struck(ed, ss[0]), ss[1..])
  }

  /** Only keys, and none that takes back a newline. */
  predicate Quiet(ed: Editing, s: Stroke) {
    (s.Edits? && KeepsBreaks(ed.line, s.e)) || s.Arrow? || s.Enter?
  }

  predicate AllQuiet(ed: Editing, ss: seq<Stroke>)
    requires IsEditing(ed) && AllPossible(ed, ss)
    decreases |ss|
  {
    ss != [] ==> Quiet(ed, ss[0]) && AllQuiet(Struck(ed, ss[0]), ss[1..])
  }

  // ---------- what the strokes spell ----------

  lemma RecalledIsRoomy(ed: Editing, direction: int)
    requires IsEditing(ed) && Roomy(ed)
    ensures Roomy(Recalls(ed, direction))
  {
    if CanRecall(ed.lines, ed.back, direction) {
      PutAllKeepsRoom(EraseAll(ed.view, |ed.line|, ed.color), 0, RecalledLine(ed.lines, ed.back - direction), ed.color);
    }
  }

  /** Pressing the up key k times, as far as the ring goes, spells the k-th most recent line. */
  lemma {:induction false} UpRecalls(ed: Editing, k: nat)
    requires IsEditing(ed) && Roomy(ed) && 1 <= k && ed.back + k <= Min(|ed.lines|, MAX_HIST)
    ensures AllPossible(ed, seq(k, i => Arrow(-1)))
    ensures var r := Typed(ed, seq(k, i => Arrow(-1)));
      r == ed.(line := ed.lines[|ed.lines| - (ed.back + k)], back := ed.back + k, view := r.view)
    decreases k
  {
    var ss := seq(k, i => Arrow(-1));
    assert ss[1..] == seq(k - 1, i => Arrow(-1));
    var next := Recalls(ed, -1);
    RecalledIsRoomy(ed, -1);
    if k > 1 {
      UpRecalls(next, k - 1);
    }
  }

  /** The line k steps back, the oldest one of the ring for no step. */
  function LineAt(ed: Editing, k: nat): seq<byte>
    requires k <= Min(|ed.lines|, MAX_HIST) && ed.lines != []
  {
    ed.lines[|ed.lines| - if k > 0 then k else Min(|ed.lines|, MAX_HIST)]
  }

  lemma OneDown(ed: Editing)
    requires IsEditing(ed) && Roomy(ed) && 1 <= ed.back
    ensures Possible(ed, Arrow(1)) && Roomy(Recalls(ed, 1))
    ensures var r := Recalls(ed, 1); r == ed.(line := LineAt(ed, ed.back - 1), back := ed.back - 1, view := r.view)
  {
    RecalledIsRoomy(ed, 1);
  }

  /** Pressing the down key k times spells the line k further forward; where there is none, behind the most
      recent one, it is the oldest one of the ring. */
  lemma {:induction false} DownRecalls(ed: Editing, k: nat)
    requires IsEditing(ed) && Roomy(ed) && 1 <= k <= ed.back
    ensures AllPossible(ed, seq(k, i => Arrow(1)))
    ensures var r := Typed(ed, seq(k, i => Arrow(1)));
      r == ed.(line := LineAt(ed, ed.back - k), back := ed.back - k, view := r.view)
    decreases k
  {
    var ss := seq(k, i => Arrow(1));
    assert ss[1..] == seq(k - 1, i => Arrow(1));
    OneDown(ed);
    if k > 1 {
      DownRecalls(Recalls(ed, 1), k - 1);
    }
  }

  /** Where the cursor has room, only an ENTER behind a full buffer is impossible. */
  lemma PossibleIff(ed: Editing, s: Stroke)
    requires IsEditing(ed) && Roomy(ed)
    ensures Possible(ed, s) <==> !(s == Enter && |ed.line| == 128)
  {
  }

  lemma {:induction false} TypedSplits(ed: Editing, ss: seq<Stroke>, more: seq<Stroke>)
    requires IsEditing(ed)
    ensures AllPossible(ed, ss + more) <==> AllPossible(ed, ss) && AllPossible(Typed(ed, ss), more)
    ensures AllPossible(ed, ss + more) ==> Typed(ed, ss + more) == Typed(Typed(ed, ss), more)
    decreases |ss|
  {
    if ss == [] {
      assert ss + more == more;
    } else {
      assert (ss + more)[1..] == ss[1..] + more;
      if Possible(ed, ss[0]) {
        TypedSplits(Struck(ed, ss[0]), ss[1..], more);
      }
    }
  }

  lemma OneStroke(ed: Editing, s: Stroke)
    requires IsEditing(ed)
    ensures AllPossible(ed, [s]) <==> Possible(ed, s)
    ensures Possible(ed, s) ==> Typed(ed, [s]) == Struck(ed, s)
  {
    assert [s][1..] == [];
  }

  /** Strokes other than ENTER leave the entered lines and the flags alone. */
  lemma {:induction false} OnlyEnterEnters(ed: Editing, ss: seq<Stroke>)
    requires IsEditing(ed) && AllPossible(ed, ss) && Enter !in ss
    ensures var r := Typed(ed, ss); r == ed.(line := r.line, back := r.back, view := r.view)
    decreases |ss|
  {
    if ss != [] {
      OnlyEnterEnters(Struck(ed, ss[0]), ss[1..]);
    }
  }

  /** Behind the ENTER that a reader waits for, the buffer holds what was spelled, text from before the
      read included, and a newline; the same line is the most recent of the history.  The newline has a
      place unless the buffer is full, which it never is with a single line. */
  lemma EnterCompletes(ed: Editing, keys: seq<Stroke>)
    requires IsEditing(ed) && ed.wanted && Enter !in keys && AllPossible(ed, keys)
    ensures AllPossible(ed, keys + [Enter]) <==> |Typed(ed, keys).line| < KEY_BUFF_SIZE
    ensures NEWLINE !in Typed(ed, keys).line ==> |Typed(ed, keys).line| < KEY_BUFF_SIZE
    ensures var line := Typed(ed, keys).line;
      |line| < KEY_BUFF_SIZE ==>
        Typed(ed, keys + [Enter]) == Editing(line + [NEWLINE], 0, ed.lines + [line], true, true,
                                             NewLine(Typed(ed, keys).view, ed.color), ed.color)
  {
    OnlyEnterEnters(ed, keys);
    TypedSplits(ed, keys, [Enter]);
    OneStroke(Typed(ed, keys), Enter);
  }

  /** The keys of a text. */
  function Keys(text: seq<byte>): (ss: seq<Stroke>)
    ensures |ss| == |text|
  {
    seq(|text|, i requires 0 <= i < |text| => Edits(Key(text[i])))
  }

  /** Any text of up to 127 characters can be typed, and is appended and echoed. */
  lemma {:induction false} KeysSpell(ed: Editing, text: seq<byte>)
    requires IsEditing(ed) && NUL !in text && |ed.line| + |text| < 128
    ensures AllPossible(ed, Keys(text))
    ensures Typed(ed, Keys(text)) == ed.(line := ed.line + text, view := PutAll(ed.view, text, ed.color))
    decreases |text|
  {
    if text == [] {
      assert ed.line + text == ed.line;
    } else {
      var ed1 := Struck(ed, Edits(Key(text[0])));
      assert text[0] in text;
      assert Keys(text)[1..] == Keys(text[1..]);
      KeysSpell(ed1, text[1..]);
      assert ed1.line + text[1..] == ed.line + text;
    }
  }

  lemma KeysFill(ed: Editing, c: byte, n: nat)
    requires IsEditing(ed) && c != NUL && |ed.line| + n < KEY_BUFF_SIZE
    ensures AllPossible(ed, seq(n, i => Edits(Key(c))))
    ensures var r := Typed(ed, seq(n, i => Edits(Key(c)))); r == ed.(line := ed.line + seq(n, i => c), view := r.view)
  {
    KeysSpell(ed, seq(n, i => c));
    assert Keys(seq(n, i => c)) == seq(n, i => Edits(Key(c)));
  }

  /** What is typed, entered and asked for with the up key is the line again. */
  lemma EnteredComesBack(ed: Editing, text: seq<byte>)
    requires IsEditing(ed) && Roomy(ed) && NUL !in text && |ed.line| + |text| < 128
    ensures var ss := Keys(text) + [Enter] + [Arrow(-1)];
      AllPossible(ed, ss) && Typed(ed, ss).line == ed.line + text
  {
    KeysSpell(ed, text);
    var typed := Typed(ed, Keys(text));
    PutAllKeepsRoom(ed.view, |ed.line|, text, ed.color);
    TypedSplits(ed, Keys(text), [Enter]);
    OneStroke(typed, Enter);
    RoomKeptIff(typed, Enter);
    TypedSplits(ed, Keys(text) + [Enter], [Arrow(-1)]);
    OneStroke(Struck(typed, Enter), Arrow(-1));
  }

  /** With a reader announced that has not taken its line yet, 127 characters and two ENTERs write
      behind the buffer. */
  lemma SecondEnterOverruns(ed: Editing, c: byte)
    requires IsEditing(ed) && ed.wanted && ed.line == [] && c != NUL
    ensures var keys := seq(KEY_BUFF_SIZE - 1, i => Edits(Key(c)));
      AllPossible(ed, keys + [Enter]) && !AllPossible(ed, keys + [Enter] + [Enter])
  {
    var keys := seq(KEY_BUFF_SIZE - 1, i => Edits(Key(c)));
    KeysFill(ed, c, KEY_BUFF_SIZE - 1);
    TypedSplits(ed, keys, [Enter]);
    OneStroke(Typed(ed, keys), Enter);
    assert |Typed(ed, keys + [Enter]).line| == KEY_BUFF_SIZE;
    TypedSplits(ed, keys + [Enter], [Enter]);
  }

  /** Only clearing the screen can take the room for the buffer away, and does so exactly when the buffer
      holds more than the prompt is long. */
  lemma RoomKeptIff(ed: Editing, s: Stroke)
    requires IsEditing(ed) && Roomy(ed) && Possible(ed, s)
    ensures Roomy(Struck(ed, s)) <==> !(s.Clear? && |ed.line| > |PROMPT|)
  {
    match s
    case Edits(e) => EditKeepsRoom(ed.view, ed.line, e, ed.color);
    case Arrow(direction) => RecalledIsRoomy(ed, direction);
    case Enter => PutKeepsRoom(ed.view, |ed.line|, NEWLINE, ed.color);
    case Clear => ClearedPos(ed.color);
    case Output(c) => OutputKeepsRoom(ed.view, |ed.line|, c, ed.color);
  }

  lemma OutputKeepsRoom(s: Screen, n: nat, c: byte, color: byte)
    requires IsScreen(s) && n <= Pos(s) && n <= KEY_BUFF_SIZE
    ensures n <= Pos(Put(s, c, color))
  {
  }

  /** While no reader has announced itself and the screen is not cleared, everything is possible. */
  lemma {:induction false} NoReaderNoOverrun(ed: Editing, ss: seq<Stroke>)
    requires IsEditing(ed) && Roomy(ed) && !ed.wanted && |ed.line| < KEY_BUFF_SIZE && Clear !in ss
    ensures AllPossible(ed, ss) && |Typed(ed, ss).line| < KEY_BUFF_SIZE && Roomy(Typed(ed, ss))
    decreases |ss|
  {
    if ss != [] {
      RoomKeptIff(ed, ss[0]);
      NoReaderNoOverrun(Struck(ed, ss[0]), ss[1..]);
    }
  }

  /** Taking back n characters is possible exactly if the cursor has room for n steps. */
  lemma {:induction false} BacksFitIff(ed: Editing, n: nat)
    requires IsEditing(ed) && n <= |ed.line|
    ensures AllPossible(ed, seq(n, i => Edits(Back))) <==> n <= Pos(ed.view)
    decreases n
  {
    var ss := seq(n, i => Edits(Back));
    if n > 0 && Pos(ed.view) > 0 {
      assert ss[1..] == seq(n - 1, i => Edits(Back));
      BacksFitIff(Struck(ed, ss[0]), n - 1);
    }
  }

  /** Eight characters, Ctrl-L and seven backspaces bring the cursor to the top left corner with a
      character left in the buffer; the eighth backspace leads out of the page. */
  lemma CornerIsReached(ed: Editing, c: byte)
    requires IsEditing(ed) && ed.line == [] && c != NUL
    ensures var keys := seq(8, i => Edits(Key(c))) + [Clear];
      && AllPossible(ed, keys + seq(7, i => Edits(Back)))
      && !AllPossible(ed, keys + seq(8, i => Edits(Back)))
  {
    var typed := seq(8, i => Edits(Key(c)));
    KeysFill(ed, c, 8);
    TypedSplits(ed, typed, [Clear]);
    OneStroke(Typed(ed, typed), Clear);
    ClearedPos(ed.color);
    var cleared := Typed(ed, typed + [Clear]);
    BacksFitIff(cleared, 7);
    BacksFitIff(cleared, 8);
    TypedSplits(ed, typed + [Clear], seq(7, i => Edits(Back)));
    TypedSplits(ed, typed + [Clear], seq(8, i => Edits(Back)));
  }

  // ---------- the terminal follows ----------

  ghost function Shown(t: Terminal): Editing
    requires t.idx <= t.keyBuf.Length
    reads t, t.keyBuf, t.history, t.screen
  {
    Editing(t.Line(), t.history.histChk, t.history.lines, t.readWanted, t.enterFlag, t.screen.view, t.screen.color)
  }

  lemma ShownIsEditing(t: Terminal)
    requires t.Valid() && t.history.Valid()
    ensures IsEditing(Shown(t))
  {
  }

  method PressKey(t: Terminal, e: Edit)
    requires t.Valid() && HasRoom(t.screen.view, t.Line(), e)
    modifies t`idx, t.keyBuf, t.screen, t.screen.vm.phys
    ensures t.Valid() && t.Line() == Edited(old(t.Line()), e)
    ensures t.screen.view == EditedView(old(t.screen.view), old(t.Line()), e, t.screen.color)
    ensures old(t.Echoed()) && KeepsBreaks(old(t.Line()), e) ==> t.Echoed()
  {
    match e
    case Key(c) => t.KeyPress(0, c);
    case Tab => t.TabPress();
    case Back => var _ := t.Backspace();
  }

  method PressArrow(t: Terminal, direction: int)
    requires t.Valid() && t.history.Valid() && IsEditing(Shown(t)) && Possible(Shown(t), Arrow(direction))
    modifies t`idx, t.keyBuf, t.screen, t.screen.vm.phys, t.history
    ensures t.Valid() && t.history.Valid() && Shown(t) == Recalls(old(Shown(t)), direction)
    ensures old(t.Echoed()) ==> t.Echoed()
  {
    var _ := t.TerminalHistory(direction);
  }

  method PressEnter(t: Terminal)
    requires t.Valid() && t.history.Valid() && IsEditing(Shown(t)) && Possible(Shown(t), Enter)
    modifies t`idx, t`enterFlag, t.keyBuf, t.screen, t.screen.vm.phys, t.history, t.history.hist
    ensures t.Valid() && t.history.Valid() && Shown(t) == Entered(old(Shown(t))) && t.Echoed()
  {
    var _ := t.EnterPress();
  }

  /** One stroke: buffer, history, flags and screen follow, and keys keep the echo. */
  method Strike(t: Terminal, s: Stroke)
    requires t.Valid() && t.history.Valid() && IsEditing(Shown(t)) && Possible(Shown(t), s)
    modifies t`idx, t`enterFlag, t.keyBuf, t.screen, t.screen.vm.phys, t.history, t.history.hist
    ensures t.Valid() && t.history.Valid() && Shown(t) == Struck(old(Shown(t)), s)
    ensures old(t.Echoed()) && Quiet(old(Shown(t)), s) ==> t.Echoed()
  {
    match s
    case Edits(e) => PressKey(t, e);
    case Arrow(direction) => PressArrow(t, direction);
    case Enter => PressEnter(t);
    case Clear => t.ClearScreen();
    case Output(c) => t.Output(c);
  }

  /** Strokes one after the other, output of programs between them: buffer, history and screen are what
      they spell, and as long as there are only keys the screen echoes the buffer. */
  method Type(t: Terminal, ss: seq<Stroke>)
    requires t.Valid() && t.history.Valid() && IsEditing(Shown(t)) && AllPossible(Shown(t), ss)
    modifies t`idx, t`enterFlag, t.keyBuf, t.screen, t.screen.vm.phys, t.history, t.history.hist
    ensures t.Valid() && t.history.Valid() && Shown(t) == Typed(old(Shown(t)), ss)
    ensures old(t.Echoed()) && AllQuiet(old(Shown(t)), ss) ==> t.Echoed()
    decreases |ss|
  {
    if ss != [] {
      Strike(t, ss[0]);
      Type(t, ss[1..]);
    }
  }

  /** A reader announces itself. */
  function Asked(ed: Editing): Editing {
    ed.(wanted := true)
  }

  /** A read of a line, from any state of the terminal, with any strokes and output from the announcement
      to the moment the reader goes on, among them an ENTER unless one was waiting: the reader gets the
      first nbytes of what the buffer holds by then.  Afterwards the buffer is empty and both flags are
      clear. */
  method ReadLine(t: Terminal, ss: seq<Stroke>, buf: array<byte>, nbytes: nat) returns (n: nat)
    requires t.Valid() && t.history.Valid() && IsEditing(Shown(t))
    requires AllPossible(Asked(Shown(t)), ss) && Typed(Asked(Shown(t)), ss).entered
    requires nbytes <= buf.Length && buf != t.keyBuf && buf != t.screen.vm.phys && buf != t.history.hist
    modifies t`idx, t`enterFlag, t`readWanted, t.keyBuf, t.screen, t.screen.vm.phys, t.history, t.history.hist, buf
    ensures t.Valid() && t.history.Valid()
    ensures var r := Typed(Asked(old(Shown(t))), ss);
      && n == Min(nbytes, |r.line|)
      && buf[..] == Splice(old(buf[..]), 0, r.line[..n])
      && Shown(t) == r.(line := [], wanted := false, entered := false)
  {
    var _ := t.BeginRead(nbytes);
    Type(t, ss);
    n := t.FinishRead(buf, nbytes);
  }
}
