/**
  Splitting a command into the name of a program and its arguments.
 */
module CommandLine {
  import opened Common

  predicate Ends(b: byte) {
    b == NUL || b == NEWLINE
  }

  /** The buffer starts with line, ended by a NUL or a newline. */
  ghost predicate IsLine(buffer: seq<byte>, line: seq<byte>) {
    && |line| < |buffer| && Ends(buffer[|line|])
    && forall k :: 0 <= k < |line| ==> buffer[k] == line[k] && !Ends(line[k])
  }

  /** A line is everything in front of the first byte 0 or 10. */
  lemma LineIff(buffer: seq<byte>, line: seq<byte>)
    ensures IsLine(buffer, line) <==>
              && |line| < |buffer| && buffer[..|line|] == line && buffer[|line|] in {0, 10}
              && 0 !in line && 10 !in line
  {
  }

  /** How many spaces s starts with. */
  function Spaces(s: seq<byte>): (n: nat)
    ensures n <= |s|
    ensures n < |s| ==> s[n] != SPACE
    ensures forall k :: 0 <= k < n ==> s[k] == SPACE
  {
    if s == [] || s[0] != SPACE then 0 else 1 + Spaces(s[1..])
  }

  /** How many other characters s starts with. */
  function WordLength(s: seq<byte>): (n: nat)
    ensures n <= |s|
    ensures n < |s| ==> s[n] == SPACE
    ensures forall k :: 0 <= k < n ==> s[k] != SPACE
  {
    if s == [] || s[0] == SPACE then 0 else 1 + WordLength(s[1..])
  }

  /** Where the program name starts and stops, and where the arguments start. */
  function NameStart(line: seq<byte>): (n: nat)
    ensures n <= |line|
  {
    Spaces(line)
  }

  function NameStop(line: seq<byte>): (n: nat)
    ensures NameStart(line) <= n <= |line|
  {
    NameStart(line) + WordLength(line[NameStart(line)..])
  }

  function ArgsStart(line: seq<byte>): (n: nat)
    ensures NameStop(line) <= n <= |line|
  {
    NameStop(line) + Spaces(line[NameStop(line)..])
  }

  function ProgramName(line: seq<byte>): seq<byte> {
    line[NameStart(line)..NameStop(line)]
  }

  function Args(line: seq<byte>): seq<byte> {
    line[ArgsStart(line)..]
  }

  lemma {:induction false} SpacesAre(blank: seq<byte>, rest: seq<byte>)
    requires Blank(blank) && (rest != [] ==> rest[0] != SPACE)
    ensures Spaces(blank + rest) == |blank|
  {
    if blank == [] {
      assert blank + rest == rest;
    } else {
      assert (blank + rest)[1..] == blank[1..] + rest;
      SpacesAre(blank[1..], rest);
    }
  }

  lemma {:induction false} WordIs(word: seq<byte>, rest: seq<byte>)
    requires Word(word) && (rest != [] ==> rest[0] == SPACE)
    ensures WordLength(word + rest) == |word|
  {
    if word == [] {
      assert word + rest == rest;
    } else {
      assert (word + rest)[1..] == word[1..] + rest;
      WordIs(word[1..], rest);
    }
  }

  ghost predicate Blank(s: seq<byte>) {
    forall k :: 0 <= k < |s| ==> s[k] == ' ' as byte
  }

  ghost predicate Word(s: seq<byte>) {
    forall k :: 0 <= k < |s| ==> s[k] != ' ' as byte
  }

  /** The parse of blanks, a word, blanks and arguments is that word and these arguments, provided
      something separates the arguments. */
  lemma ParseOfAssembled(indent: seq<byte>, word: seq<byte>, gap: seq<byte>, args: seq<byte>)
    requires Blank(indent) && Word(word) && word != [] && Blank(gap)
    requires args != [] ==> gap != [] && args[0] != SPACE
    ensures ProgramName(indent + (word + (gap + args))) == word
    ensures Args(indent + (word + (gap + args))) == args
  {
    var line := indent + (word + (gap + args));
    var a, b := |indent|, |indent| + |word|;
    assert NameStart(line) == a && line[a..] == word + (gap + args) by {
      Pieces(indent, word + (gap + args));
      Pieces(word, gap + args);
      SpacesAre(indent, word + (gap + args));
    }
    assert NameStop(line) == b && line[b..] == gap + args && line[a..b] == word by {
      Pieces(gap, args);
      WordIs(word, gap + args);
      Pieces(word, gap + args);
      TwoDrops(line, a, |word|);
    }
    assert Args(line) == args by {
      SpacesAre(gap, args);
      Pieces(gap, args);
      TwoDrops(line, b, |gap|);
    }
  }

  lemma Pieces(a: seq<byte>, b: seq<byte>)
    ensures (a + b)[..|a|] == a && (a + b)[|a|..] == b
    ensures a + b != [] && a != [] ==> (a + b)[0] == a[0]
  {
  }

  lemma TwoDrops(s: seq<byte>, a: nat, b: nat)
    requires a + b <= |s|
    ensures s[a..][b..] == s[a + b..] && s[a..][..b] == s[a..a + b]
  {
  }

  /** Every line is blanks, the parsed name, blanks and the parsed arguments; the name has no space
      and the arguments do not start with one, nor follow the name directly. */
  lemma ParseReassembles(line: seq<byte>)
    ensures Word(ProgramName(line))
    ensures Args(line) != [] ==> Args(line)[0] != SPACE && ArgsStart(line) > NameStop(line)
    ensures Blank(line[..NameStart(line)]) && Blank(line[NameStop(line)..ArgsStart(line)])
    ensures line == line[..NameStart(line)] + (ProgramName(line)
                    + (line[NameStop(line)..ArgsStart(line)] + Args(line)))
  {
    var a, b, c := NameStart(line), NameStop(line), ArgsStart(line);
    NameIsWord(line);
    ArgsStartWell(line);
    assert Blank(line[b..c]) by {
      assert line[b..c] == line[b..][..c - b];
    }
    Cut(line, a, b, c);
  }

  lemma Cut(s: seq<byte>, a: nat, b: nat, c: nat)
    requires a <= b <= c <= |s|
    ensures s == s[..a] + (s[a..b] + (s[b..c] + s[c..]))
  {
    assert s[b..c] + s[c..] == s[b..];
    assert s[a..b] + s[b..] == s[a..];
  }

  lemma NameIsWord(line: seq<byte>)
    ensures Word(ProgramName(line))
  {
    var a, b := NameStart(line), NameStop(line);
    assert ProgramName(line) == line[a..][..b - a];
  }

  lemma ArgsStartWell(line: seq<byte>)
    ensures Args(line) != [] ==> Args(line)[0] != SPACE && ArgsStart(line) > NameStop(line)
  {
    var a, b, c := NameStart(line), NameStop(line), ArgsStart(line);
    var tail, rest := line[a..], line[b..];
    if c < |line| {
      assert line[c] == rest[c - b];
      assert line[b] == tail[b - a];
    }
  }

  // The loops of parse_args, in order.

  method SkipIndent(command: array<byte>, ghost line: seq<byte>) returns (ret: int, start: nat)
    requires IsLine(command[..], line)
    ensures ret == 0 && start == NameStart(line)
  {
    start := 0;
    var end := 0;
    while command[start] == SPACE
      invariant 0 <= start <= |line| && Spaces(line) == start + Spaces(line[start..])
      invariant start > 0 ==> command[0] == SPACE
      decreases |line| - start
    {
      assert line[start..][1..] == line[start + 1..];
      start := start + 1;
      if command[end] == NEWLINE || command[end] == NUL {
        return -1, start;
      }
    }
    ret := 0;
  }

  method CopyName(command: array<byte>, start: nat, filename: array<byte>, ghost line: seq<byte>) returns (end: nat)
    requires IsLine(command[..], line) && start == NameStart(line)
    requires command != filename && |line| < filename.Length
    modifies filename
    ensures end == NameStop(line)
    ensures filename[..] == Splice(old(filename[..]), 0, ProgramName(line) + [NUL])
  {
    ghost var buffer := command[..];
    end := start;
    while command[end] != SPACE && command[end] != NEWLINE && command[end] != NUL
      invariant start <= end <= |line| && command[..] == buffer
      invariant NameStop(line) == end + WordLength(line[end..])
      invariant forall k :: 0 <= k < end - start ==> filename[k] == line[start + k]
      invariant forall k :: end - start <= k < filename.Length ==> filename[k] == old(filename[k])
      decreases |line| - end
    {
      assert line[end..][1..] == line[end + 1..];
      filename[end - start] := command[end];
      end := end + 1;
    }
    filename[end - start] := NUL;
    SplicedWhere(old(filename[..]), 0, line[start..end] + [NUL], filename[..]);
  }

  method SkipGap(command: array<byte>, end: nat, ghost line: seq<byte>) returns (start: nat)
    requires IsLine(command[..], line) && end == NameStop(line)
    ensures start == ArgsStart(line)
  {
    start := end;
    while command[start] == SPACE
      invariant end <= start <= |line|
      invariant ArgsStart(line) == start + Spaces(line[start..])
      decreases |line| - start
    {
      assert line[start..][1..] == line[start + 1..];
      start := start + 1;
    }
  }

  method CopyArgs(command: array<byte>, start: nat, args: array<byte>, ghost line: seq<byte>)
    requires IsLine(command[..], line) && start == ArgsStart(line)
    requires command != args && |line| < args.Length
    modifies args
    ensures args[..] == Splice(old(args[..]), 0, Args(line) + [NUL])
  {
    ghost var buffer := command[..];
    var end := start;
    while command[end] != NUL && command[end] != NEWLINE
      invariant start <= end <= |line| && command[..] == buffer
      invariant forall k :: 0 <= k < end - start ==> args[k] == line[start + k]
      invariant forall k :: end - start <= k < args.Length ==> args[k] == old(args[k])
      decreases |line| - end
    {
      args[end - start] := command[end];
      end := end + 1;
    }
    args[end - start] := NUL;
    assert line[start..end] == Args(line);
    SplicedWhere(old(args[..]), 0, Args(line) + [NUL], args[..]);
  }

  method ParseArgs(command: array<byte>, filename: array<byte>, args: array<byte>, ghost line: seq<byte>)
    returns (ret: int)
    requires command != filename && command != args && filename != args
    requires IsLine(command[..], line)
    requires |line| < filename.Length && |line| < args.Length
    modifies filename, args
    ensures ret == 0
    ensures filename[..] == Splice(old(filename[..]), 0, ProgramName(line) + [NUL])
    ensures args[..] == Splice(old(args[..]), 0, Args(line) + [NUL])
  {
    var start;
    ret, start := SkipIndent(command, line);
    if ret != 0 {
      return;
    }
    var end := CopyName(command, start, filename, line);
    start := SkipGap(command, end, line);
    CopyArgs(command, start, args, line);
  }
}
