/** trimStr of liblst. */
module LiblstTrim {
  import opened CString
  import opened Liblst

  predicate AllSpace(s: string) { forall i | 0 <= i < |s| :: IsSpace(s[i]) }

  /** `r` is `s` without its outer white space. */
  ghost predicate Trimmed(s: string, r: string) {
    exists u, v {:trigger u + r + v} :: IsTrim(s, u, r, v)
  }

  ghost predicate IsTrim(s: string, u: string, r: string, v: string) {
    && s == u + r + v && AllSpace(u) && AllSpace(v)
    && (r != "" ==> !IsSpace(r[0]) && !IsSpace(r[|r| - 1]))
  }

  lemma TrimEdges(s: string, u: string, r: string, v: string)
    requires IsTrim(s, u, r, v)
    ensures forall i | 0 <= i < |u| || |s| - |v| <= i < |s| :: IsSpace(s[i])
    ensures r == s[|u|..|s| - |v|]
    ensures r == "" ==> AllSpace(s)
    ensures r != "" ==> !IsSpace(s[|u|]) && !IsSpace(s[|s| - |v| - 1])
  {
    assert forall i | 0 <= i < |u| :: s[i] == u[i];
    assert forall i | |s| - |v| <= i < |s| :: s[i] == v[i - |s| + |v|];
  }

  /** The trimmed text is unique, so it is the maximal such substring. */
  lemma TrimUnique(s: string, r1: string, r2: string)
    requires Trimmed(s, r1) && Trimmed(s, r2)
    ensures r1 == r2
  {
    var u1, v1 :| IsTrim(s, u1, r1, v1);
    var u2, v2 :| IsTrim(s, u2, r2, v2);
    TrimEdges(s, u1, r1, v1);
    TrimEdges(s, u2, r2, v2);
  }

  /** The copy while the backward scan stands at `e`: NUL before `p` and after
      `e`, the text in between. */
  predicate Scanning(copy: array<char>, str: string, p: nat, e: int)
    reads copy
  {
    && copy.Length == |str| + 1 && p <= |str| && p - 1 <= e && 0 <= e < |str|
    && (p < |str| ==> p <= e && !IsSpace(str[p]))
    && (p > 0 ==> copy[p - 1] == NUL)
    && (forall k | p <= k <= e :: copy[k] == str[k])
    && copy[e + 1] == NUL
    && AllSpace(str[..p]) && AllSpace(str[e + 1..])
  }

  lemma IsTrimSlice(s: string, p: nat, q: nat)
    requires p <= q <= |s| && AllSpace(s[..p]) && AllSpace(s[q..])
    requires p < q ==> !IsSpace(s[p]) && !IsSpace(s[q - 1])
    ensures Trimmed(s, s[p..q])
  {
    assert s == s[..p] + s[p..q] + s[q..];
    assert IsTrim(s, s[..p], s[p..q], s[q..]);
  }

  /** trimStr on a non-empty string. The forward scan writes NULs over the
      leading spaces, so the backward scan meets one of them when there is
      nothing else, and no index leaves the copy. On the empty string the
      original would read the byte before the copy. */
  method TrimStr(s: array<char>)
    requires Terminated(s[..]) && Str(s[..]) != ""
    modifies s
    ensures Terminated(s[..]) && Trimmed(old(Str(s[..])), Str(s[..]))
  {
    var str := Str(s[..]);
    var copy := StrDup(str);
    var p := ScanForward(copy, str);
    var text := ReadAt(copy, p, str);
    var e := p + |text| - 1;
    while copy[e] != NUL && IsSpace(copy[e])
      invariant Scanning(copy, str, p, e)
      decreases e
    {
      copy[e] := NUL;
      e := e - 1;
    }
    text := ReadTrimmed(copy, str, p, e);
    StrCpy(s, text);
  }

  /** The forward loop: zero the leading white space. */
  method ScanForward(copy: array<char>, ghost str: CStr) returns (p: nat)
    requires Untouched(copy, str, 0)
    modifies copy
    ensures Untouched(copy, str, p) && AllSpace(str[..p])
    ensures p > 0 ==> copy[p - 1] == NUL
    ensures p < |str| ==> !IsSpace(str[p])
  {
    p := 0;
    while copy[p] != NUL && IsSpace(copy[p])
      invariant Untouched(copy, str, p)
      invariant p > 0 ==> copy[p - 1] == NUL
      invariant AllSpace(str[..p])
      decreases |str| - p
    {
      copy[p] := NUL;
      p := p + 1;
    }
  }

  /** The string that starts at `p` once the backward loop has stopped. */
  method ReadTrimmed(copy: array<char>, ghost str: CStr, p: nat, ghost e: int) returns (text: CStr)
    requires Scanning(copy, str, p, e) && (copy[e] == NUL || !IsSpace(copy[e]))
    ensures Trimmed(str, text) && |text| <= |str|
  {
    assert copy[p..][..e + 1 - p] == str[p..][..e + 1 - p];
    StrCut(copy[p..], str[p..], e + 1 - p);
    IsTrimSlice(str, p, e + 1);
    assert str[p..][..e + 1 - p] == str[p..e + 1];
    text := Str(copy[p..]);
  }
}
