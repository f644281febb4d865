/**
  Integer widths, character codes and configuration constants shared by every module.

  The number of terminals, of processes and of history lines are left symbolic: the results
  hold for any choice for which the 8-bit fields the kernel keeps them in do not wrap around.  The kernel itself
  uses 3, 6 and 3; with more than 6 processes their pages would meet the pages of the terminals
  (VideoMemory.ProgramsAvoidBuffersIff).
 */
module Common {

  type byte = x: int | 0 <= x < 0x100
  type uint32 = x: int | 0 <= x < 0x1_0000_0000

  const NUL: byte := 0
  const NEWLINE: byte := 10
  const CARRIAGE_RETURN: byte := 13
  const SPACE: byte := 32

  type Count = n: nat | 1 <= n <= 0xFF witness 3

  // hist_cnt, a byte, is raised to MAX_HIST + 1 before it is cut.
  type HistoryCount = n: nat | 1 <= n < 0xFF witness 3

  const NUM_TERM: Count
  const MAX_NUM_PROC: Count
  const MAX_HIST: HistoryCount

  const KEY_BUFF_SIZE: nat := 128

  function Min(a: int, b: int): int {
    if a <= b then a else b
  }

  /** The bytes of a text. */
  function Text(s: string): (t: seq<byte>)
    requires forall i :: 0 <= i < |s| ==> s[i] as int < 0x80
    ensures |t| == |s|
  {
    seq(|s|, i requires 0 <= i < |s| => s[i] as byte)
  }

  lemma HeadFirst<T>(s: seq<T>, t: seq<T>)
    requires s != []
    ensures s + t == [s[0]] + (s[1..] + t)
  {
  }

  lemma SliceOfSlice<T>(s: seq<T>, a: nat, n: nat, m: nat)
    requires a + n <= |s| && m <= n
    ensures s[a..a + n][..m] == s[a..a + m]
  {
  }

  /** Counting in a ring. */
  lemma SuccessorInRing(x: nat, n: nat)
    requires x < n
    ensures (x + 1) % n == if x + 1 == n then 0 else x + 1
  {
    var q, r := (x + 1) / n, (x + 1) % n;
    assert x + 1 == q * n + r;
    if q == 0 {
    } else {
      AtLeastOnce(q, n);
    }
  }

  lemma PlaceInRing(x: nat, j: nat, n: nat)
    requires x < n && j <= n
    ensures (x + j) % n == if x + j < n then x + j else x + j - n
  {
    var q, r := (x + j) / n, (x + j) % n;
    assert x + j == q * n + r;
    if q != 0 {
      AtLeastOnce(q, n);
    }
    if q != 1 {
      AtLeastOnce(q - 1, n);
      assert (q - 1) * n == q * n - n;
    }
  }

  lemma AtLeastOnce(q: int, n: nat)
    requires q != 0
    ensures q > 0 ==> q * n >= n
    ensures q > 1 ==> q * n >= n + n
    ensures q < 0 ==> q * n <= 0 - n
  {
  }

  /** s with t written over it from position `at` on. */
  function Splice<T>(s: seq<T>, at: nat, t: seq<T>): (r: seq<T>)
    requires at + |t| <= |s|
    ensures |r| == |s|
  {
    s[..at] + t + s[at + |t|..]
  }

  lemma SpliceIff<T>(s: seq<T>, at: nat, t: seq<T>, r: seq<T>)
    requires at + |t| <= |s|
    ensures r == Splice(s, at, t) <==>
              && |r| == |s| && r[at..at + |t|] == t
              && (forall k :: 0 <= k < |s| && !(at <= k < at + |t|) ==> r[k] == s[k])
  {
    if |r| == |s| && r[at..at + |t|] == t && (forall k :: 0 <= k < |s| && !(at <= k < at + |t|) ==> r[k] == s[k]) {
      assert r == r[..at] + r[at..at + |t|] + r[at + |t|..];
    }
  }

  /** Element by element: r is s with t written over it. */
  lemma SplicedWhere<T>(s: seq<T>, at: nat, t: seq<T>, r: seq<T>)
    requires at + |t| <= |s| == |r|
    requires forall k :: 0 <= k < |t| ==> r[at + k] == t[k]
    requires forall k :: 0 <= k < |s| && !(at <= k < at + |t|) ==> r[k] == s[k]
    ensures r == Splice(s, at, t)
  {
    assert r[at..at + |t|] == t;
    SpliceIff(s, at, t, r);
  }

  lemma SpliceStep<T>(s: seq<T>, at: nat, t: seq<T>, x: T)
    requires at + |t| < |s|
    ensures Splice(s, at, t + [x]) == Splice(s, at, t)[at + |t| := x]
  {
  }

  lemma SpliceUpdate<T>(s: seq<T>, at: nat, t: seq<T>, i: nat, x: T)
    requires at + |t| <= |s| && i < |t|
    ensures Splice(s, at, t)[at + i] == t[i]
    ensures Splice(s, at, t)[at + i := x] == Splice(s, at, t[i := x])
  {
  }
}
