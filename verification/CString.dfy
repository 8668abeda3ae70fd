/** The part of the C string model that the other modules share.

    A `char` stands for one byte. Nothing below depends on how many values a
    byte has, so every statement holds for 8-bit data in particular. A buffer is
    a `string` that may hold any byte; a `CStr` is the value of a `char*`, which
    by convention holds no NUL. */
module CString {
  const NUL := '\0'

  type CStr = s: string | Lacks(s, NUL) witness ""

  /** `c` is nowhere in `s`. */
  predicate Lacks(s: string, c: char) {
    forall k | 0 <= k < |s| :: s[k] != c
  }

  datatype Option<+T> = None | Some(value: T)

  /** `i` is the position of the first `c` in `s`, or `|s|` when there is none. */
  predicate IsFirst(c: char, s: string, i: nat) {
    && i <= |s| && (i < |s| ==> s[i] == c)
    && forall k | 0 <= k < i :: s[k] != c
  }

  lemma {:induction false} FirstExists(c: char, s: string, from: nat)
    requires from <= |s| && forall k | 0 <= k < from :: s[k] != c
    ensures exists i :: 0 <= i <= |s| && IsFirst(c, s, i)
    decreases |s| - from
  {
    if from == |s| || s[from] == c {
      assert IsFirst(c, s, from);
    } else {
      FirstExists(c, s, from + 1);
    }
  }

  /** strchr, memchr. */
  function Find(c: char, s: string): (i: nat)
    ensures IsFirst(c, s, i)
  {
    FirstExists(c, s, 0);
    var i :| 0 <= i <= |s| && IsFirst(c, s, i);
    i
  }

  /** The C string that starts at the first byte of a buffer: everything up to
      the first NUL. */
  function Str(s: string): (r: CStr) {
    s[..Find(NUL, s)]
  }

  lemma FindUnique(c: char, s: string, i: nat)
    requires IsFirst(c, s, i)
    ensures Find(c, s) == i
  {
  }

  /** Appending bytes does not move the first `c`. */
  lemma FindAppend(c: char, s: string, t: string)
    ensures Find(c, s) < |s| ==> Find(c, s + t) == Find(c, s)
    ensures Find(c, s) == |s| ==> Find(c, s + t) == |s| + Find(c, t)
  {
    if Find(c, s) < |s| {
      FindUnique(c, s + t, Find(c, s));
    } else {
      FindUnique(c, s + t, |s| + Find(c, t));
    }
  }

  /** A buffer that agrees with `s` up to a NUL at position `n` reads as `s[..n]`. */
  lemma StrCut(b: string, s: CStr, n: nat)
    requires n <= |s| && n < |b| && b[..n] == s[..n] && b[n] == NUL
    ensures Str(b) == s[..n]
  {
    assert forall k | 0 <= k < n :: b[k] == b[..n][k] == s[k];
    FindUnique(NUL, b, n);
  }

  lemma StrOfCStr(s: CStr)
    ensures Str(s) == s
  {
    FindUnique(NUL, s, |s|);
  }

  /** `x` stands in `s` at position `i`. */
  predicate At(s: string, x: string, i: nat) {
    i + |x| <= |s| && s[i..i + |x|] == x
  }

  /** `i` is the first place where `x` stands in `s`, or -1 when there is none. */
  predicate IsFirstAt(s: string, x: string, i: int) {
    && -1 <= i && (i >= 0 ==> At(s, x, i))
    && forall j: nat | (i < 0 || j < i) && j <= |s| :: !At(s, x, j)
  }

  lemma {:induction false} FirstAtExists(s: string, x: string, from: nat)
    requires from <= |s| + 1 && forall j: nat | j < from :: !At(s, x, j)
    ensures exists i :: -1 <= i <= |s| && IsFirstAt(s, x, i)
    decreases |s| + 1 - from
  {
    if from > |s| {
      assert IsFirstAt(s, x, -1);
    } else if At(s, x, from) {
      assert IsFirstAt(s, x, from);
    } else {
      FirstAtExists(s, x, from + 1);
    }
  }

  /** strstr. */
  function StrStr(s: string, x: string): (i: int)
    ensures IsFirstAt(s, x, i)
  {
    FirstAtExists(s, x, 0);
    var i :| -1 <= i <= |s| && IsFirstAt(s, x, i);
    i
  }

  lemma StrStrUnique(s: string, x: string, i: nat)
    requires At(s, x, i)
    requires forall j: nat | j < i :: !At(s, x, j)
    ensures StrStr(s, x) == i
  {
  }

  /** Slices of a tail are slices of the whole. */
  lemma Slices(s: string, p: nat, i: nat)
    requires p + i <= |s|
    ensures s[p..][i..] == s[p + i..]
    ensures s[p..][..i] == s[p..p + i]
  {
  }

  lemma Assoc<T>(a: seq<T>, b: seq<T>, c: seq<T>)
    ensures a + (b + c) == (a + b) + c
  {
  }

  /** Concatenation of a list of strings. */
  function Flat(ss: seq<string>): string {
    if ss == [] then "" else ss[0] + Flat(ss[1..])
  }

  lemma {:induction false} FlatAppend(a: seq<string>, b: seq<string>)
    ensures Flat(a + b) == Flat(a) + Flat(b)
  {
    if a == [] {
      assert a + b == b;
    } else {
      assert (a + b)[0] == a[0] && (a + b)[1..] == a[1..] + b;
      FlatAppend(a[1..], b);
    }
  }

  lemma FlatSnoc(chunks: seq<string>, x: string)
    ensures Flat(chunks + [x]) == Flat(chunks) + x
  {
    FlatAppend(chunks, [x]);
    assert [x][1..] == [] && x + "" == x;
  }

  // Character classes of the C locale.

  predicate IsSpace(c: char) {
    c == ' ' || c == '\t' || c == '\n' || c == '\U{000B}' || c == '\U{000C}' || c == '\r'
  }

  predicate IsDigit(c: char) { '0' <= c <= '9' }

  predicate IsUpper(c: char) { 'A' <= c <= 'Z' }

  predicate IsLower(c: char) { 'a' <= c <= 'z' }

  function ToLower(c: char): char {
    if IsUpper(c) then (c as int + 32) as char else c
  }

  function Lower(s: string): (r: string)
    ensures |r| == |s|
  {
    seq(|s|, i requires 0 <= i < |s| => ToLower(s[i]))
  }

  /** `s == strcasestr(s, x)`: `s` begins with `x`, letter case aside. */
  predicate StartsNoCase(s: string, x: string) {
    |x| <= |s| && Lower(s[..|x|]) == Lower(x)
  }

  const UPPER := "ABCDEFGHIJKLMNOPQRSTUVWXYZ"
  const LOWER := "abcdefghijklmnopqrstuvwxyz"

  lemma UpperAt(i: nat)
    requires i < 26
    ensures UPPER[i] as int == 'A' as int + i
  {
  }

  lemma LowerAt(i: nat)
    requires i < 26
    ensures LOWER[i] as int == 'a' as int + i
  {
  }

  /** tolower is a table: each capital letter has its small one, and no other byte
      changes. */
  lemma CaseTable(c: char, i: nat)
    ensures i < 26 ==> ToLower(UPPER[i]) == LOWER[i]
    ensures c !in UPPER ==> ToLower(c) == c
  {
    if i < 26 {
      UpperAt(i);
      LowerAt(i);
    }
    if IsUpper(c) {
      UpperAt(c as int - 'A' as int);
    }
  }

  /** isspace: the blank, and the control characters 9 to 13. */
  lemma SpaceCodes(c: char)
    ensures IsSpace(c) <==> c as int == 32 || 9 <= c as int <= 13
  {
  }
}
