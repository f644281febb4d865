/**
  The ring of recently entered lines of one terminal.
 */
module History {
  import opened Common
  import opened CStrings

  /** A text that fits a row of the history with a NUL behind it.  It may hold newlines: of lines that
      no reader has taken yet. */
  predicate Storable(line: seq<byte>) {
    |line| < KEY_BUFF_SIZE && NUL !in line
  }

  /** Where the k-th most recent line is in a ring that is filled next at `fill`. */
  function SlotOf(fill: nat, k: nat): (slot: nat)
    requires fill < MAX_HIST && k <= MAX_HIST
    ensures slot <= MAX_HIST && (k > 0 ==> slot < MAX_HIST)
  {
    if k <= fill then fill - k else fill - k + MAX_HIST
  }

  function Row(rows: seq<byte>, slot: nat): (row: seq<byte>)
    requires |rows| == MAX_HIST * KEY_BUFF_SIZE && slot < MAX_HIST
    ensures |row| == KEY_BUFF_SIZE
  {
    rows[KEY_BUFF_SIZE * slot..KEY_BUFF_SIZE * (slot + 1)]
  }

  function RowText(rows: seq<byte>, slot: nat): seq<byte>
    requires |rows| == MAX_HIST * KEY_BUFF_SIZE && slot < MAX_HIST
  {
    FieldText(Row(rows, slot))
  }

  /** The ring, as a list of texts, holds the last cnt of the lines ever entered, and all of them
      until it is full. */
  ghost predicate RingHolds(texts: seq<seq<byte>>, fill: nat, cnt: nat, lines: seq<seq<byte>>) {
    && |texts| == MAX_HIST && fill < MAX_HIST
    && cnt == Min(|lines|, MAX_HIST) && (cnt < MAX_HIST ==> fill == cnt)
    && (forall i :: 0 <= i < |lines| ==> Storable(lines[i]))
    && (forall k :: 1 <= k <= cnt ==> texts[SlotOf(fill, k)] == lines[|lines| - k])
  }

  ghost predicate RowsHold(rows: seq<byte>, texts: seq<seq<byte>>) {
    && |rows| == MAX_HIST * KEY_BUFF_SIZE && |texts| == MAX_HIST
    && forall slot :: 0 <= slot < MAX_HIST ==> RowText(rows, slot) == texts[slot]
  }

  /** After chk steps back the pointer stands at the chk-th most recent line. */
  ghost predicate PointerIs(fill: nat, cnt: nat, ptr: nat, chk: nat)
    requires fill < MAX_HIST && cnt <= MAX_HIST
  {
    && chk <= cnt
    && if chk > 0 then ptr == SlotOf(fill, chk) else ptr == fill || (ptr == 0 && fill == cnt)
  }

  function Padded(line: seq<byte>): (row: seq<byte>)
    requires |line| <= KEY_BUFF_SIZE
    ensures |row| == KEY_BUFF_SIZE
  {
    line + seq(KEY_BUFF_SIZE - |line|, i => NUL)
  }

  lemma PaddedText(line: seq<byte>)
    requires Storable(line)
    ensures FieldText(Padded(line)) == line
  {
    FieldTextUnique(Padded(line), line);
  }

  function NextSlot(fill: nat): nat
    requires fill < MAX_HIST
  {
    if fill + 1 == MAX_HIST then 0 else fill + 1
  }

  /** The line entered last replaces the oldest one. */
  lemma RingPush(texts: seq<seq<byte>>, fill: nat, cnt: nat, lines: seq<seq<byte>>, line: seq<byte>)
    requires RingHolds(texts, fill, cnt, lines) && Storable(line)
    ensures RingHolds(texts[fill := line], NextSlot(fill), Min(cnt + 1, MAX_HIST), lines + [line])
  {
    var texts', fill', cnt', lines' := texts[fill := line], NextSlot(fill), Min(cnt + 1, MAX_HIST), lines + [line];
    forall k | 1 <= k <= cnt' ensures texts'[SlotOf(fill', k)] == lines'[|lines'| - k] {
      if k == 1 {
        assert SlotOf(fill', 1) == fill;
      } else {
        assert SlotOf(fill', k) == SlotOf(fill, k - 1) != fill;
      }
    }
  }

  lemma RowWritten(rows: seq<byte>, texts: seq<seq<byte>>, slot: nat, line: seq<byte>)
    requires RowsHold(rows, texts) && slot < MAX_HIST && Storable(line)
    requires KEY_BUFF_SIZE * slot + KEY_BUFF_SIZE <= |rows|
    ensures RowsHold(Splice(rows, KEY_BUFF_SIZE * slot, Padded(line)), texts[slot := line])
  {
    var rows' := Splice(rows, KEY_BUFF_SIZE * slot, Padded(line));
    PaddedText(line);
    forall u | 0 <= u < MAX_HIST ensures RowText(rows', u) == texts[slot := line][u] {
      if u == slot {
        assert Row(rows', u) == Padded(line);
      } else {
        assert Row(rows', u) == Row(rows, u);
      }
    }
  }

  /** The slot a recall moves the pointer to: one step back (-1) or forward (1) in the ring. */
  function Moved(ptr: nat, direction: int, cnt: nat): int {
    if ptr + direction < 0 then cnt - 1 else if ptr + direction >= cnt then 0 else ptr + direction
  }

  /** Stepping keeps the pointer on the line the counter names; stepping forward from the most
      recent line leads to the oldest one. */
  lemma MovedPointer(fill: nat, cnt: nat, ptr: nat, chk: nat, direction: int)
    requires 0 < cnt <= MAX_HIST && fill < MAX_HIST && (cnt < MAX_HIST ==> fill == cnt)
    requires PointerIs(fill, cnt, ptr, chk)
    requires (direction == -1 && chk < cnt) || (direction == 1 && chk > 0)
    ensures 0 <= Moved(ptr, direction, cnt) < cnt
    ensures PointerIs(fill, cnt, Moved(ptr, direction, cnt), chk - direction)
    ensures Moved(ptr, direction, cnt) == SlotOf(fill, if chk - direction > 0 then chk - direction else cnt)
  {
  }

  /** How many of the lines ever entered can be recalled. */
  function Reach(lines: seq<seq<byte>>): (n: nat)
    ensures n <= |lines|
  {
    Min(|lines|, MAX_HIST)
  }

  /** There is a line one step further in this direction. */
  predicate CanRecall(lines: seq<seq<byte>>, back: nat, direction: int) {
    (direction == -1 && back < Reach(lines)) || (direction == 1 && back > 0)
  }

  /** The line found after going back; not going back at all finds the oldest line. */
  function RecalledLine(lines: seq<seq<byte>>, back: nat): seq<byte>
    requires lines != [] && back <= Reach(lines)
  {
    lines[|lines| - if back > 0 then back else Reach(lines)]
  }

  lemma SteppedPointer(texts: seq<seq<byte>>, fill: nat, cnt: nat, lines: seq<seq<byte>>,
                       ptr: nat, chk: nat, direction: int)
    requires RingHolds(texts, fill, cnt, lines) && PointerIs(fill, cnt, ptr, chk)
    requires CanRecall(lines, chk, direction)
    ensures 0 <= Moved(ptr, direction, cnt) < MAX_HIST
    ensures 0 <= chk - direction <= Reach(lines)
    ensures PointerIs(fill, cnt, Moved(ptr, direction, cnt), chk - direction)
    ensures var line := RecalledLine(lines, chk - direction);
      texts[Moved(ptr, direction, cnt)] == line && Storable(line)
  {
    MovedPointer(fill, cnt, ptr, chk, direction);
  }

  lemma EndOfRow(row: seq<byte>, index: nat)
    requires |row| == KEY_BUFF_SIZE && Storable(FieldText(row)) && index <= |FieldText(row)|
    ensures row[index] == NUL <==> index == |FieldText(row)|
    ensures index < |FieldText(row)| ==> FieldText(row)[index] == row[index]
  {
  }

  lemma SlotInBounds(slot: nat)
    requires slot < MAX_HIST
    ensures KEY_BUFF_SIZE * slot + KEY_BUFF_SIZE <= MAX_HIST * KEY_BUFF_SIZE
  {
  }

  class History {
    const hist: array<byte>       // MAX_HIST rows of KEY_BUFF_SIZE bytes
    var histPtr: nat
    var histChk: nat
    var histFill: nat
    var histCnt: nat
    ghost var texts: seq<seq<byte>>  // what the rows hold
    ghost var lines: seq<seq<byte>>  // every line ever entered

    ghost predicate Valid()
      reads this, hist
    {
      && RowsHold(hist[..], texts)
      && RingHolds(texts, histFill, histCnt, lines)
      && PointerIs(histFill, histCnt, histPtr, histChk)
    }

    constructor ()
      ensures Valid() && lines == [] && fresh(hist) && histChk == 0
    {
      hist := new byte[MAX_HIST * KEY_BUFF_SIZE](i => NUL);
      histPtr, histChk, histFill, histCnt, lines := 0, 0, 0, 0, [];
      texts := seq(MAX_HIST, slot => []);
      new;
      forall slot | 0 <= slot < MAX_HIST ensures RowText(hist[..], slot) == texts[slot] {
        assert Row(hist[..], slot)[0] == NUL;
      }
    }

    /** Clears the row that is filled next and copies the line into it. */
    method StoreLine(keyBuf: array<byte>, n: nat)
      requires n <= KEY_BUFF_SIZE == keyBuf.Length && hist.Length == MAX_HIST * KEY_BUFF_SIZE
      requires histFill < MAX_HIST && hist != keyBuf
      requires KEY_BUFF_SIZE * histFill + KEY_BUFF_SIZE <= hist.Length
      modifies hist
      ensures hist[..] == Splice(old(hist[..]), KEY_BUFF_SIZE * histFill, Padded(keyBuf[..n]))
    {
      var base := KEY_BUFF_SIZE * histFill;
      var i := 0;
      while i < KEY_BUFF_SIZE
        invariant 0 <= i <= KEY_BUFF_SIZE
        invariant hist[..] == Splice(old(hist[..]), base, seq(i, k => NUL))
      {
        SpliceStep(old(hist[..]), base, seq(i, k => NUL), NUL);
        hist[base + i] := NUL;
        assert seq(i, k => NUL) + [NUL] == seq(i + 1, k => NUL);
        i := i + 1;
      }
      i := 0;
      while i < n
        invariant 0 <= i <= n
        invariant hist[..] == Splice(old(hist[..]), base, Padded(keyBuf[..i]))
      {
        SpliceUpdate(old(hist[..]), base, Padded(keyBuf[..i]), i, keyBuf[i]);
        hist[base + i] := keyBuf[i];
        assert Padded(keyBuf[..i])[i := keyBuf[i]] == Padded(keyBuf[..i + 1]);
        i := i + 1;
      }
    }

    /** What the ENTER key does to the history. */
    method Push(keyBuf: array<byte>, n: nat)
      requires Valid() && n < KEY_BUFF_SIZE == keyBuf.Length && hist != keyBuf && Storable(keyBuf[..n])
      modifies this, hist
      ensures Valid() && histChk == 0 && lines == old(lines) + [keyBuf[..n]]
    {
      ghost var line := keyBuf[..n];
      SlotInBounds(histFill);
      RingPush(texts, histFill, histCnt, lines, line);
      RowWritten(hist[..], texts, histFill, line);
      StoreLine(keyBuf, n);
      texts := texts[histFill := line];
      Advance();
      lines := lines + [line];
    }

    method Advance()
      requires histFill < MAX_HIST && histCnt <= MAX_HIST
      modifies this`histFill, this`histPtr, this`histChk, this`histCnt
      ensures histFill == histPtr == NextSlot(old(histFill)) && histChk == 0
      ensures histCnt == Min(old(histCnt) + 1, MAX_HIST)
    {
      SuccessorInRing(histFill, MAX_HIST);
      histFill := (histFill + 1) % MAX_HIST;
      histPtr := histFill;
      histChk := 0;
      histCnt := histCnt + 1;
      if histCnt > MAX_HIST {
        histCnt := MAX_HIST;
      }
    }

    /** Moves the pointer one step; `moved` says whether there is a line to retype. */
    method Step(direction: int) returns (moved: bool)
      requires Valid()
      modifies this`histPtr, this`histChk
      ensures Valid()
      ensures moved == CanRecall(lines, old(histChk), direction)
      ensures moved ==> histChk == old(histChk) - direction <= Reach(lines) && histPtr < MAX_HIST
                        && texts[histPtr] == RecalledLine(lines, histChk) && Storable(RecalledLine(lines, histChk))
      ensures !moved ==> histChk == old(histChk) && histPtr == old(histPtr)
    {
      moved := StepAllowed(direction);
      if moved {
        TakeStep(direction);
      }
    }

    method TakeStep(direction: int)
      requires Valid() && CanRecall(lines, histChk, direction)
      modifies this`histPtr, this`histChk
      ensures Valid() && histChk == old(histChk) - direction <= Reach(lines) && histPtr < MAX_HIST
      ensures texts[histPtr] == RecalledLine(lines, histChk) && Storable(RecalledLine(lines, histChk))
    {
      SteppedPointer(texts, histFill, histCnt, lines, histPtr, histChk, direction);
      MovePointer(direction);
      histChk := histChk - direction;
    }

    method StepAllowed(direction: int) returns (ok: bool)
      requires histChk <= histCnt == Reach(lines)
      ensures ok == CanRecall(lines, histChk, direction)
    {
      if direction != 1 && direction != -1 {
        return false;
      }
      if (histChk == histCnt && direction == -1) || histCnt == 0 {
        return false;
      } else if histChk == 0 && direction == 1 {
        return false;
      }
      ok := true;
    }

    method MovePointer(direction: int)
      requires 0 <= Moved(histPtr, direction, histCnt)
      modifies this`histPtr
      ensures histPtr == Moved(old(histPtr), direction, histCnt)
    {
      if histPtr + direction < 0 {
        histPtr := histCnt - 1;
      } else if histPtr + direction >= histCnt {
        histPtr := 0;
      } else {
        histPtr := histPtr + direction;
      }
    }

    method Byte(index: nat) returns (c: byte)
      requires Valid() && histPtr < MAX_HIST && Storable(texts[histPtr]) && index <= |texts[histPtr]|
      ensures c == NUL <==> index == |texts[histPtr]|
      ensures c != NUL ==> c == texts[histPtr][index]
    {
      assert RowText(hist[..], histPtr) == texts[histPtr];
      EndOfRow(Row(hist[..], histPtr), index);
      SlotInBounds(histPtr);
      c := hist[KEY_BUFF_SIZE * histPtr + index];
    }
  }
}
