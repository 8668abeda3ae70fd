/** String engine of liblst: replace, chop, split, glue and trim. */
module Liblst {
  import opened CString

  // ---------------------------------------------------------------------
  // Replacement

  /** The pieces of `s` between the leftmost non-overlapping places of `x`. */
  function Pieces(s: string, x: string): (ps: seq<string>)
    requires x != ""
    ensures ps != []
    decreases |s|
  {
    var i := StrStr(s, x);
    if i < 0 then [s] else [s[..i]] + Pieces(s[i + |x|..], x)
  }

  function Join(ps: seq<string>, sep: string): string
    requires ps != []
  {
    if |ps| == 1 then ps[0] else ps[0] + sep + Join(ps[1..], sep)
  }

  /** What ptReplaceStr computes; an empty search text appends. */
  function Replace(s: string, search: string, replace: string): string {
    if search == "" then s + replace else ReplaceAll(s, search, replace)
  }

  /** Replace the first place found, then go on behind it. */
  function ReplaceAll(s: string, x: string, r: string): string
    requires x != ""
    decreases |s|
  {
    var i := StrStr(s, x);
    if i < 0 then s else s[..i] + (r + ReplaceAll(s[i + |x|..], x, r))
  }

  /** Replacement seen as a whole: cut at every place, join with the new text. */
  lemma {:induction false} ReplaceIsJoin(s: string, x: string, r: string)
    requires x != ""
    ensures ReplaceAll(s, x, r) == Join(Pieces(s, x), r)
    decreases |s|
  {
    var i := StrStr(s, x);
    if i >= 0 {
      var rest := s[i + |x|..];
      ReplaceIsJoin(rest, x, r);
      ReplaceHead(s, x, r, i);
      JoinStep(s, x, r);
    }
  }

  lemma JoinStep(s: string, x: string, r: string)
    requires x != "" && StrStr(s, x) >= 0
    ensures var i := StrStr(s, x);
            Join(Pieces(s, x), r) == s[..i] + (r + Join(Pieces(s[i + |x|..], x), r))
  {
    var i := StrStr(s, x);
    assert Pieces(s, x)[1..] == Pieces(s[i + |x|..], x);
  }

  /** Every piece ends where `x` first stands in the rest of the string. */
  predicate Leftmost(ps: seq<string>, x: string)
    requires x != "" && ps != []
  {
    && (|ps| == 1 ==> StrStr(ps[0], x) < 0)
    && (|ps| > 1 ==> StrStr(ps[0] + x, x) == |ps[0]| && Leftmost(ps[1..], x))
  }

  /** The first place of `x` only depends on the text up to its end. */
  lemma StrStrPrefix(a: string, x: string, rest: string)
    requires x != ""
    ensures StrStr(a + x, x) == |a| <==> StrStr(a + x + rest, x) == |a|
  {
    var s, t := a + x, a + x + rest;
    assert At(s, x, |a|) && At(t, x, |a|);
    assert forall j: nat | j < |a| :: At(t, x, j) ==> t[j..j + |x|] == s[j..j + |x|];
    assert forall j: nat | j < |a| :: At(s, x, j) ==> s[j..j + |x|] == t[j..j + |x|];
    assert forall j: nat | j < |a| :: At(s, x, j) == At(t, x, j);
    if forall j: nat | j < |a| :: !At(s, x, j) {
      StrStrUnique(s, x, |a|);
      StrStrUnique(t, x, |a|);
    }
  }

  /** Joining the pieces with the search text gives the string back, and each
      cut is the leftmost possible one. */
  lemma {:induction false} PiecesAreLeftmost(s: string, x: string)
    requires x != ""
    ensures Join(Pieces(s, x), x) == s
    ensures Leftmost(Pieces(s, x), x)
    decreases |s|
  {
    var i := StrStr(s, x);
    if i >= 0 {
      var rest := s[i + |x|..];
      assert s == s[..i] + x + rest;
      StrStrPrefix(s[..i], x, rest);
      PiecesAreLeftmost(rest, x);
      assert Pieces(s, x)[1..] == Pieces(rest, x);
    }
  }

  /** Those two properties leave no choice: they determine the pieces. */
  lemma {:induction false} PiecesUnique(ps: seq<string>, x: string)
    requires x != "" && ps != [] && Leftmost(ps, x)
    ensures Pieces(Join(ps, x), x) == ps
  {
    if |ps| > 1 {
      var rest := Join(ps[1..], x);
      var s := Join(ps, x);
      assert s == ps[0] + x + rest;
      StrStrPrefix(ps[0], x, rest);
      assert s[..|ps[0]|] == ps[0] && s[|ps[0]| + |x|..] == rest;
      PiecesUnique(ps[1..], x);
    }
  }

  lemma {:induction false} JoinLength(ps: seq<string>, a: string, b: string)
    requires ps != []
    ensures |Join(ps, b)| == |Join(ps, a)| + (|ps| - 1) * (|b| - |a|)
  {
    if |ps| > 1 {
      JoinLength(ps[1..], a, b);
      assert (|ps| - 1) * (|b| - |a|) == (|ps| - 2) * (|b| - |a|) + (|b| - |a|);
    }
  }

  /** Length of a replacement: one difference per place replaced. */
  lemma {:induction false} ReplaceLength(s: string, x: string, r: string)
    requires x != ""
    ensures |Replace(s, x, r)| == |s| + (|Pieces(s, x)| - 1) * (|r| - |x|)
  {
    PiecesAreLeftmost(s, x);
    JoinLength(Pieces(s, x), x, r);
    ReplaceIsJoin(s, x, r);
  }

  /** Replacing a text by itself changes nothing. */
  lemma ReplaceBySelf(s: string, x: string)
    requires x != ""
    ensures Replace(s, x, x) == s
  {
    PiecesAreLeftmost(s, x);
    ReplaceIsJoin(s, x, x);
  }

  lemma {:induction false} JoinLacks(ps: seq<string>, sep: string, c: char)
    requires ps != [] && Lacks(sep, c)
    requires forall p | p in ps :: Lacks(p, c)
    ensures Lacks(Join(ps, sep), c)
  {
    if |ps| > 1 {
      assert Lacks(ps[0], c);
      assert forall p | p in ps[1..] :: p in ps;
      JoinLacks(ps[1..], sep, c);
    }
  }

  lemma {:induction false} PiecesLack(s: string, x: string, c: char)
    requires x != "" && Lacks(s, c)
    ensures forall p | p in Pieces(s, x) :: Lacks(p, c)
    decreases |s|
  {
    var i := StrStr(s, x);
    if i >= 0 {
      PiecesLack(s[i + |x|..], x, c);
    }
  }

  /** A byte found neither in the text nor in the replacement is not in the result. */
  lemma ReplaceLacks(s: string, x: string, r: string, c: char)
    requires Lacks(s, c) && Lacks(r, c)
    ensures Lacks(Replace(s, x, r), c)
  {
    if x != "" {
      PiecesLack(s, x, c);
      JoinLacks(Pieces(s, x), r, c);
      ReplaceIsJoin(s, x, r);
    }
  }

  /** With a non-empty replacement only the empty text becomes empty. */
  lemma ReplaceEmpty(s: string, x: string, r: string)
    requires x != "" && r != ""
    ensures Replace(s, x, r) == "" <==> s == ""
  {
  }

  /** An empty search text appends: the string, then the new text. */
  lemma ReplaceAppends(s: string, r: string)
    ensures var e := Replace(s, "", r);
            |e| == |s| + |r| && (forall k | 0 <= k < |s| :: e[k] == s[k]) && (forall k | 0 <= k < |r| :: e[|s| + k] == r[k])
  {
  }

  /** A search text that stands at exactly one place is replaced there. */
  lemma ReplaceOnce(pre: string, x: string, post: string, r: string)
    requires x != "" && Leftmost([pre, post], x)
    ensures Replace(pre + x + post, x, r) == pre + r + post
  {
    assert [pre, post][1..] == [post];
    PiecesUnique([pre, post], x);
    ReplaceIsJoin(pre + x + post, x, r);
    assert Join([pre, post], x) == pre + x + post;
    assert Join([pre, post], r) == pre + r + post;
  }

  /** A working copy of `s` whose bytes from `p` on are still untouched. */
  predicate Untouched(copy: array<char>, s: CStr, p: nat)
    reads copy
  {
    && p <= |s| && copy.Length == |s| + 1 && copy[|s|] == NUL
    && forall k | p <= k < |s| :: copy[k] == s[k]
  }

  /** strdup: a working copy with its terminator. */
  method StrDup(s: CStr) returns (copy: array<char>)
    ensures fresh(copy) && Untouched(copy, s, 0)
  {
    copy := new char[|s| + 1];
    for i := 0 to |s|
      invariant forall k | 0 <= k < i :: copy[k] == s[k]
    {
      copy[i] := s[i];
    }
    copy[|s|] := NUL;
  }

  /** The C string at `copy + p`. */
  method ReadAt(copy: array<char>, p: nat, ghost s: CStr) returns (r: CStr)
    requires Untouched(copy, s, p)
    ensures r == s[p..]
  {
    StrCut(copy[p..], s[p..], |s| - p);
    r := Str(copy[p..]);
  }

  /** `copy[q] = 0`, after which the C string at `copy + p` ends there. */
  method CutAt(copy: array<char>, p: nat, q: nat, ghost s: CStr) returns (r: CStr)
    requires Untouched(copy, s, p) && p <= q < |s|
    modifies copy
    ensures r == s[p..q] && copy[q] == NUL && Untouched(copy, s, q + 1)
  {
    copy[q] := NUL;
    assert copy[p..][..q - p] == s[p..][..q - p];
    StrCut(copy[p..], s[p..], q - p);
    r := Str(copy[p..]);
  }

  /** The loop below at position `p`: what is done and what is to come. */
  predicate Replacing(s: string, x: string, r: string, p: nat, found: int, done: string)
    requires x != ""
  {
    && p <= |s| && found == StrStr(s[p..], x)
    && ReplaceAll(s, x, r) == done + ReplaceAll(s[p..], x, r)
  }

  /** One round: the text before the place, then the replacement. */
  lemma ReplaceStep(s: string, x: string, r: string, p: nat, found: nat, done: string, piece: string,
                     grown: string, next: nat)
    requires x != "" && Replacing(s, x, r, p, found, done) && piece == s[p..p + found]
    requires grown == done + piece + r && next == p + found + |x|
    ensures next <= |s| && Replacing(s, x, r, next, StrStr(s[next..], x), grown)
  {
    ReplaceAt(s, x, r, p, found);
    Glued(done, piece, r, ReplaceAll(s[next..], x, r));
  }

  lemma ReplaceStart(s: string, x: string, r: string)
    requires x != ""
    ensures Replacing(s, x, r, 0, StrStr(s, x), "")
  {
    assert s[0..] == s;
  }

  lemma ReplaceAt(s: string, x: string, r: string, p: nat, found: nat)
    requires x != "" && p <= |s| && found == StrStr(s[p..], x)
    ensures p + found + |x| <= |s|
    ensures ReplaceAll(s[p..], x, r) == s[p..p + found] + (r + ReplaceAll(s[p + found + |x|..], x, r))
  {
    ReplaceHead(s[p..], x, r, found);
    Slices(s, p, found);
    Slices(s, p, found + |x|);
  }

  lemma ReplaceHead(s: string, x: string, r: string, i: nat)
    requires x != "" && i == StrStr(s, x)
    ensures ReplaceAll(s, x, r) == s[..i] + (r + ReplaceAll(s[i + |x|..], x, r))
  {
  }

  lemma Glued(done: string, piece: string, r: string, rest: string)
    ensures done + (piece + (r + rest)) == (done + piece + r) + rest
  {
  }

  /** ptReplaceStr: cut a working copy at each place found and concatenate. */
  method PtReplaceStr(s: CStr, search: CStr, replace: CStr) returns (rval: string)
    ensures rval == Replace(s, search, replace)
  {
    if |search| == 0 {
      return s + replace;
    }
    var copy := StrDup(s);
    rval := "";
    var p := 0;
    var text := ReadAt(copy, p, s);
    var found := StrStr(text, search);
    ReplaceStart(s, search, replace);
    while found >= 0
      invariant Untouched(copy, s, p)
      invariant Replacing(s, search, replace, p, found, rval)
      decreases |s| - p
    {
      text := CutAt(copy, p, p + found, s);
      var grown := rval + text + replace;
      var next := p + found + |search|;
      ReplaceStep(s, search, replace, p, found, rval, text, grown, next);
      rval, p := grown, next;
      text := ReadAt(copy, p, s);
      found := StrStr(text, search);
    }
    text := ReadAt(copy, p, s);
    rval := rval + text;
  }

  // ---------------------------------------------------------------------
  // Chop

  /** `s` without the byte `c`. */
  function Without(s: string, c: char): string {
    if s == "" then ""
    else if s[0] == c then Without(s[1..], c)
    else [s[0]] + Without(s[1..], c)
  }

  /** What chopStr leaves: the text with every LF and CR taken out. */
  function Chop(s: string): string {
    Without(Without(s, '\n'), '\r')
  }

  lemma {:induction false} WithoutIsSubset(s: string, c: char, d: char)
    ensures |Without(s, c)| <= |s|
    ensures Lacks(Without(s, c), c)
    ensures Lacks(s, d) ==> Lacks(Without(s, c), d)
    ensures Lacks(s, c) ==> Without(s, c) == s
  {
    if s != "" {
      WithoutIsSubset(s[1..], c, d);
    }
  }

  lemma ChopIsSubset(s: string, d: char)
    ensures |Chop(s)| <= |s|
    ensures Lacks(Chop(s), '\n') && Lacks(Chop(s), '\r')
    ensures Lacks(s, d) ==> Lacks(Chop(s), d)
    ensures Lacks(s, '\n') && Lacks(s, '\r') ==> Chop(s) == s
  {
    WithoutIsSubset(s, '\n', d);
    WithoutIsSubset(s, '\n', '\r');
    WithoutIsSubset(Without(s, '\n'), '\r', d);
    WithoutIsSubset(Without(s, '\n'), '\r', '\n');
  }

  lemma {:induction false} WithoutSplit(s: string, t: string, c: char)
    ensures Without(s + t, c) == Without(s, c) + Without(t, c)
  {
    if s == "" {
      assert s + t == t;
    } else {
      assert (s + t)[1..] == s[1..] + t;
      WithoutSplit(s[1..], t, c);
    }
  }

  lemma ChopSplit(s: string, t: string)
    ensures Chop(s + t) == Chop(s) + Chop(t)
  {
    WithoutSplit(s, t, '\n');
    WithoutSplit(Without(s, '\n'), Without(t, '\n'), '\r');
  }

  /** Chopping is a filter: it is idempotent, works piecewise (so it keeps the
      order of what it keeps), drops LF and CR and keeps any other byte. */
  lemma ChopIsFilter(s: string, t: string, c: char)
    ensures Chop(Chop(s)) == Chop(s)
    ensures Chop(s + t) == Chop(s) + Chop(t)
    ensures Chop([c]) == if c == '\n' || c == '\r' then "" else [c]
  {
    ChopIsSubset(s, NUL);
    ChopIsSubset(Chop(s), NUL);
    ChopSplit(s, t);
    assert Without([c], '\n') == if c == '\n' then "" else [c] by {
      assert [c][1..] == "";
    }
    assert Without([c], '\r') == if c == '\r' then "" else [c] by {
      assert [c][1..] == "";
    }
  }

  /** strstr for a single byte is strchr. */
  lemma StrStrByte(s: string, c: char)
    ensures StrStr(s, [c]) == if Find(c, s) < |s| then Find(c, s) else -1
  {
    var i := Find(c, s);
    assert forall j: nat | j < |s| :: At(s, [c], j) ==> s[j..j + 1][0] == s[j];
    if i < |s| {
      StrStrUnique(s, [c], i);
    }
  }

  lemma WithoutStep(pre: string, c: char, rest: string)
    requires Lacks(pre, c)
    ensures Without(pre + [c] + rest, c) == pre + Without(rest, c)
  {
    WithoutSplit(pre, [c] + rest, c);
    assert pre + [c] + rest == pre + ([c] + rest);
    assert ([c] + rest)[1..] == rest;
    WithoutIsSubset(pre, c, c);
  }

  /** Removing by replacement, byte by byte. */
  lemma {:induction false} RemoveByte(s: string, c: char)
    ensures ReplaceAll(s, [c], "") == Without(s, c)
    decreases |s|
  {
    StrStrByte(s, c);
    var i := Find(c, s);
    if i < |s| {
      var rest := s[i + 1..];
      RemoveByte(rest, c);
      ReplaceAtByte(s, c, i);
      WithoutAtByte(s, c, i);
    } else {
      WithoutIsSubset(s, c, c);
    }
  }

  lemma ReplaceAtByte(s: string, c: char, i: nat)
    requires i < |s| && StrStr(s, [c]) == i
    ensures ReplaceAll(s, [c], "") == s[..i] + ReplaceAll(s[i + 1..], [c], "")
  {
    var rest := ReplaceAll(s[i + |[c]|..], [c], "");
    assert "" + rest == rest;
  }

  lemma WithoutAtByte(s: string, c: char, i: nat)
    requires i < |s| && Lacks(s[..i], c) && s[i] == c
    ensures Without(s, c) == s[..i] + Without(s[i + 1..], c)
  {
    WithoutStep(s[..i], c, s[i + 1..]);
    assert s[..i] + [c] + s[i + 1..] == s;
  }

  /** The buffer holds a NUL, so that a C string can be read from it. */
  predicate Terminated(b: string) {
    Find(NUL, b) < |b|
  }

  /** strcpy. */
  method StrCpy(dst: array<char>, src: CStr)
    requires |src| < dst.Length
    modifies dst
    ensures Terminated(dst[..]) && Str(dst[..]) == src
    ensures forall k | |src| < k < dst.Length :: dst[k] == old(dst[k])
  {
    for i := 0 to |src|
      invariant forall k | 0 <= k < i :: dst[k] == src[k]
      invariant forall k | i <= k < dst.Length :: dst[k] == old(dst[k])
    {
      dst[i] := src[i];
    }
    dst[|src|] := NUL;
    assert dst[..][..|src|] == src[..|src|];
    StrCut(dst[..], src, |src|);
    FindUnique(NUL, dst[..], |src|);
  }

  /** The two replacements of chopStr. */
  lemma ChopByReplacing(s: CStr)
    ensures Replace(s, "\n", "") == Without(s, '\n') && Lacks(Without(s, '\n'), NUL)
    ensures Replace(Without(s, '\n'), "\r", "") == Chop(s) && Lacks(Chop(s), NUL) && |Chop(s)| <= |s|
  {
    RemoveByte(s, '\n');
    RemoveByte(Without(s, '\n'), '\r');
    WithoutIsSubset(s, '\n', NUL);
    WithoutIsSubset(Without(s, '\n'), '\r', NUL);
  }

  /** chopStr, in place: two replacements, then strcpy over the argument. */
  method ChopStr(s: array<char>)
    requires Terminated(s[..])
    modifies s
    ensures Terminated(s[..]) && Str(s[..]) == Chop(old(Str(s[..])))
    ensures forall k | |old(Str(s[..]))| < k < s.Length :: s[k] == old(s[k])
  {
    var str := Str(s[..]);
    ChopByReplacing(str);
    var t := PtReplaceStr(str, "\n", "");
    var t2 := PtReplaceStr(t, "\r", "");
    StrCpy(s, t2);
  }
}
