/**
  NUL-terminated strings inside byte buffers, and the string routines of the kernel library.
  A C pointer is an array together with an index; a pointer to memory that is never written is a
  sequence together with an index.
 */
module CStrings {
  import opened Common

  /** The text in a field of fixed size: up to the first NUL, or all of it. */
  function FieldText(field: seq<byte>): (text: seq<byte>)
    ensures |text| <= |field| && text == field[..|text|] && NUL !in text
    ensures |text| < |field| ==> field[|text|] == NUL
  {
    if field == [] || field[0] == NUL then [] else [field[0]] + FieldText(field[1..])
  }

  /** At `at`, the buffer holds text followed by its terminating NUL. */
  ghost predicate IsCString(s: seq<byte>, at: nat, text: seq<byte>) {
    at + |text| < |s| && FieldText(s[at..]) == text
  }

  lemma {:induction false} FieldTextUnique(field: seq<byte>, text: seq<byte>)
    requires |text| <= |field| && text == field[..|text|] && NUL !in text
    requires |text| < |field| ==> field[|text|] == NUL
    ensures FieldText(field) == text
  {
    if text != [] {
      assert text[0] in text && field[0] == text[0];
      assert text[1..] == field[1..][..|text| - 1];
      FieldTextUnique(field[1..], text[1..]);
    }
  }

  /** The text of a shorter field is the text of the longer one, cut. */
  lemma {:induction false} FieldTextClip(field: seq<byte>, n: nat)
    requires n <= |field|
    ensures FieldText(field[..n]) == FieldText(field)[..Min(n, |FieldText(field)|)]
  {
    var text := FieldText(field);
    var cut := text[..Min(n, |text|)];
    assert forall k :: 0 <= k < |cut| ==> cut[k] == text[k] && text[k] in text;
    FieldTextUnique(field[..n], cut);
  }

  /** What it takes to be the C string at a place. */
  lemma CStringIff(s: seq<byte>, at: nat, text: seq<byte>)
    requires at + |text| < |s|
    ensures IsCString(s, at, text) <==>
              s[at..at + |text|] == text && s[at + |text|] == NUL && NUL !in text
  {
    assert s[at..][..|text|] == s[at..at + |text|];
    if s[at..at + |text|] == text && s[at + |text|] == NUL && NUL !in text {
      FieldTextUnique(s[at..], text);
    }
  }

  /** A field that holds a NUL is a C string. */
  lemma FieldIsCString(s: seq<byte>, at: nat, size: nat)
    requires at + size <= |s| && |FieldText(s[at..at + size])| < size
    ensures IsCString(s, at, FieldText(s[at..at + size]))
  {
    var text := FieldText(s[at..at + size]);
    assert s[at..at + |text|] == s[at..at + size][..|text|];
    CStringIff(s, at, text);
  }

  method Strlen(s: array<byte>, at: nat, ghost text: seq<byte>) returns (len: nat)
    requires IsCString(s[..], at, text)
    ensures len == |text|
  {
    len := 0;
    assert s[..][at..] == s[at..];
    while s[at + len] != NUL
      invariant len <= |text|
      invariant FieldText(s[at + len..]) == text[len..]
      decreases |text| - len
    {
      assert s[at + len..][1..] == s[at + len + 1..];
      len := len + 1;
    }
  }

  method Strcpy(dest: array<byte>, to: nat, src: seq<byte>, from: nat, ghost text: seq<byte>)
    requires IsCString(src, from, text) && to + |text| < dest.Length
    modifies dest
    ensures dest[..] == Splice(old(dest[..]), to, text + [NUL])
    ensures IsCString(dest[..], to, text)
  {
    CStringIff(src, from, text);
    var i := 0;
    while src[from + i] != NUL
      invariant 0 <= i <= |text|
      invariant forall k :: 0 <= k < i ==> dest[to + k] == text[k]
      invariant forall k :: 0 <= k < dest.Length && !(to <= k < to + i) ==> dest[k] == old(dest[k])
      decreases |text| - i
    {
      NulIsTheEnd(src, from, text, i);
      dest[to + i] := src[from + i];
      i := i + 1;
    }
    assert i == |text| by { NulIsTheEnd(src, from, text, i); }
    dest[to + i] := NUL;
    assert dest[..][to..to + |text|] == text;
    CStringIff(dest[..], to, text);
    assert dest[..][to..to + |text| + 1] == text + [NUL];
    SpliceIff(old(dest[..]), to, text + [NUL], dest[..]);
  }

  lemma NulIsTheEnd(s: seq<byte>, at: nat, text: seq<byte>, i: nat)
    requires IsCString(s, at, text) && i <= |text|
    ensures s[at + i] == NUL <==> i == |text|
    ensures i < |text| ==> s[at + i] == text[i]
  {
    if i < |text| {
      assert s[at..][..|text|][i] == text[i] && text[i] in text;
    }
  }

  /** A character compared as C does: the byte as an 8-bit two's complement. */
  function Signed(b: byte): (n: int)
    ensures -0x80 <= n < 0x80 && (n - b) % 0x100 == 0
  {
    if b < 0x80 then b else b - 0x100
  }

  /** Position i is the first at which a field and a string disagree. */
  ghost predicate FirstMismatch(field: seq<byte>, text: seq<byte>, i: int) {
    && 0 <= i < |field| && i <= |text|
    && field[..i] == text[..i]
    && field[i] != (text + [NUL])[i]
  }

  /** Compares a field of n bytes with a string. */
  method Strncmp(s1: seq<byte>, a1: nat, s2: array<byte>, a2: nat, n: nat, ghost text: seq<byte>)
    returns (r: int)
    requires a1 + n <= |s1|
    requires IsCString(s2[..], a2, text)
    ensures r == 0 <==> FieldText(s1[a1..a1 + n]) == text[..Min(n, |text|)]
    ensures r != 0 ==> exists i :: FirstMismatch(s1[a1..a1 + n], text, i)
                                   && r == Signed(s1[a1 + i]) - Signed((text + [NUL])[i])
  {
    ghost var field := s1[a1..a1 + n];
    var i := 0;
    while i < n
      invariant 0 <= i <= n && i <= |text| && field[..i] == text[..i]
    {
      CompareAt(field, s2[..], a2, text, i);
      assert s1[a1 + i] == field[i];
      if s1[a1 + i] != s2[a2 + i] || s1[a1 + i] == NUL {
        r := Signed(s1[a1 + i]) - Signed(s2[a2 + i]);
        return;
      }
      i := i + 1;
    }
    r := 0;
    CStringIff(s2[..], a2, text);
    FieldTextUnique(field, text[..n]);
  }

  /** One comparison of strncmp: it ends the loop with the answer, or both strings go on. */
  lemma CompareAt(field: seq<byte>, s2: seq<byte>, a2: nat, text: seq<byte>, i: nat)
    requires i < |field| && i <= |text| && IsCString(s2, a2, text) && field[..i] == text[..i]
    ensures s2[a2 + i] == (text + [NUL])[i]
    ensures field[i] != s2[a2 + i] ==> FirstMismatch(field, text, i) && FieldText(field) != text[..Min(|field|, |text|)]
    ensures field[i] == s2[a2 + i] == NUL ==> FieldText(field) == text[..Min(|field|, |text|)]
    ensures field[i] == s2[a2 + i] != NUL ==> i < |text| && field[..i + 1] == text[..i + 1]
  {
    NulIsTheEnd(s2, a2, text, i);
    CStringIff(s2, a2, text);
    if field[i] != s2[a2 + i] {
      MismatchDiffers(field, text, i);
    } else if field[i] == NUL {
      FieldTextUnique(field, text);
    } else {
      LongerPrefix(field, text, i);
    }
  }

  lemma LongerPrefix(s: seq<byte>, t: seq<byte>, i: nat)
    requires i < |s| && i < |t| && s[..i] == t[..i] && s[i] == t[i]
    ensures s[..i + 1] == t[..i + 1]
  {
    assert s[..i + 1] == s[..i] + [s[i]] && t[..i + 1] == t[..i] + [t[i]];
  }

  lemma MismatchDiffers(field: seq<byte>, text: seq<byte>, i: nat)
    requires FirstMismatch(field, text, i) && NUL !in text
    ensures FieldText(field) != text[..Min(|field|, |text|)]
  {
    var t := FieldText(field);
    if i < |t| {
      assert t[i] == field[i];
    } else if i < |text| {
      assert |t| < Min(|field|, |text|);
    }
  }

  /** A string written with its NUL is the C string at that place. */
  lemma SplicedIsCString(before: seq<byte>, at: nat, text: seq<byte>)
    requires at + |text| < |before| && NUL !in text
    ensures IsCString(Splice(before, at, text + [NUL]), at, text)
  {
    var after := Splice(before, at, text + [NUL]);
    assert after[at..at + |text|] == text;
    CStringIff(after, at, text);
  }
}
