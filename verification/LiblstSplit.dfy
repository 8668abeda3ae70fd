/** The list half of liblst: split a string into tokens and glue a list back. */
module LiblstSplit {
  import opened CString
  import opened Liblst

  /** The maximal runs of bytes other than the splitter. */
  function Tokens(c: char, s: string): (ts: seq<string>)
    decreases |s|
  {
    if s == "" then []
    else if s[0] == c then Tokens(c, s[1..])
    else
      var i := Find(c, s);
      [s[..i]] + Tokens(c, s[i..])
  }

  /** Every token is non-empty and free of the splitter, and gluing the tokens
      gives the input with every splitter removed. */
  lemma {:induction false} TokensGlue(c: char, s: string)
    ensures forall t | t in Tokens(c, s) :: t != "" && Lacks(t, c)
    ensures Flat(Tokens(c, s)) == Without(s, c)
    decreases |s|
  {
    if s == "" {
    } else if s[0] == c {
      TokensGlue(c, s[1..]);
    } else {
      var i := Find(c, s);
      assert i > 0;
      TokensGlue(c, s[i..]);
      assert s == s[..i] + s[i..];
      WithoutIsSubset(s[..i], c, c);
      WithoutSplit(s[..i], s[i..], c);
    }
  }

  /** A token followed by the splitter, or by nothing, comes off the front. */
  lemma TokensHead(c: char, t: string, rest: string)
    requires t != "" && Lacks(t, c) && (rest != "" ==> rest[0] == c)
    ensures Tokens(c, t + rest) == [t] + Tokens(c, rest)
  {
    var s := t + rest;
    assert s[0] == t[0] && t[0] != c;
    FindUnique(c, s, |t|);
    assert s[..|t|] == t && s[|t|..] == rest;
  }

  /** Splitting undoes joining, for any non-empty list of proper tokens. */
  lemma {:induction false} TokensOfJoin(c: char, ts: seq<string>)
    requires ts != []
    requires forall t | t in ts :: t != "" && Lacks(t, c)
    ensures Tokens(c, Join(ts, [c])) == ts
  {
    assert Lacks(ts[0], c);
    if |ts| == 1 {
      assert ts[0] + "" == ts[0] && ts == [ts[0]];
      TokensHead(c, ts[0], "");
    } else {
      var rest := Join(ts[1..], [c]);
      TokensHead(c, ts[0], [c] + rest);
      assert ts[0] + ([c] + rest) == Join(ts, [c]);
      assert ([c] + rest)[1..] == rest;
      assert forall u | u in ts[1..] :: u in ts;
      TokensOfJoin(c, ts[1..]);
    }
  }

  /** The tokens of `s` are those in `lst` and those from `from` on, and no
      splitter stands between `from` and the scan position. */
  predicate Splitting(c: char, s: CStr, from: nat, p: nat, lst: seq<string>) {
    && from <= p <= |s|
    && (forall k | from <= k < p :: s[k] != c)
    && lst + Tokens(c, s[from..]) == Tokens(c, s)
  }

  /** At the end of a token the rest starts with the splitter, or is empty. */
  lemma TokenEnds(c: char, s: CStr, b: nat, p: nat, lst: seq<string>)
    requires b < p && Splitting(c, s, b, p, lst) && (p < |s| ==> s[p] == c)
    ensures Splitting(c, s, p, p, lst + [s[b..p]])
  {
    TokensHead(c, s[b..p], s[p..]);
    assert s[b..p] + s[p..] == s[b..];
    Pushed(lst, s[b..p], Tokens(c, s[p..]));
  }

  lemma Pushed(a: seq<string>, x: string, b: seq<string>)
    ensures a + ([x] + b) == (a + [x]) + b
  {
  }

  lemma SkipSplitter(c: char, s: CStr, p: nat, lst: seq<string>)
    requires p < |s| && s[p] == c && Splitting(c, s, p, p, lst)
    ensures Splitting(c, s, p + 1, p + 1, lst)
  {
    assert s[p..][1..] == s[p + 1..];
  }

  lemma SplittingEnds(c: char, s: CStr, lst: seq<string>)
    requires Splitting(c, s, |s|, |s|, lst)
    ensures lst == Tokens(c, s)
  {
    assert s[|s|..] == "";
  }

  /** lstSplitStr: write a NUL over each splitter of a copy and push the runs.
      The list is empty where the original returns a null list. */
  method LstSplitStr(splitter: char, s: CStr) returns (lst: seq<string>)
    ensures lst == Tokens(splitter, s)
  {
    var t := StrDup(s);
    var p := 0;
    var b := -1;
    lst := [];
    var from := 0;
    assert s[0..] == s;
    while t[p] != NUL
      invariant -1 <= b && from == if b < 0 then p else b
      invariant b < p && Splitting(splitter, s, from, p, lst)
      invariant Untouched(t, s, from)
      decreases |s| - p
    {
      if t[p] == splitter {
        var token := CutAt(t, from, p, s);
        if b >= 0 {
          TokenEnds(splitter, s, b, p, lst);
          lst := lst + [token];
          b := -1;
        }
        SkipSplitter(splitter, s, p, lst);
        from := p + 1;
      } else if b < 0 {
        b := p;
      }
      p := p + 1;
    }
    assert p == |s|;
    if b >= 0 {
      TokenEnds(splitter, s, b, p, lst);
      assert s[b..] == s[b..p];
      var token := ReadAt(t, b, s);
      lst := lst + [token];
    }
    SplittingEnds(splitter, s, lst);
  }

  /** lstGlue: append the elements one after the other. */
  method LstGlue(lst: seq<string>) returns (rval: string)
    ensures rval == Flat(lst)
  {
    rval := "";
    var i := 0;
    while i < |lst|
      invariant 0 <= i <= |lst|
      invariant rval + Flat(lst[i..]) == Flat(lst)
    {
      assert lst[i..][1..] == lst[i + 1..];
      assert rval + Flat(lst[i..]) == (rval + lst[i]) + Flat(lst[i + 1..]);
      rval := rval + lst[i];
      i := i + 1;
    }
  }
}
