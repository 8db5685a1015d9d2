/** The string operations the reel components rely on: JavaScript's `trim()`, `split(/\s+/)`
    and joining words with single spaces. Whitespace is the ASCII part of the regular-expression
    class `\s` (space, tab, line feed, vertical tab, form feed, carriage return); `trim()` strips
    the same set. */
module Text {

  predicate IsSpace(c: char)
  {
    c == ' ' || c == '\t' || c == '\n' || c == '\r' || c == '\U{000B}' || c == '\U{000C}'
  }

  /** The regular-expression class `\w`. */
  predicate IsWordChar(c: char)
  {
    ('a' <= c <= 'z') || ('A' <= c <= 'Z') || ('0' <= c <= '9') || c == '_'
  }

  predicate AllSpace(s: string)
  {
    forall k :: 0 <= k < |s| ==> IsSpace(s[k])
  }

  predicate NoSpace(s: string)
  {
    forall k :: 0 <= k < |s| ==> !IsSpace(s[k])
  }

  /** A word as `split(/\s+/)` yields it between two whitespace runs. */
  predicate IsWord(w: string)
  {
    w != [] && NoSpace(w)
  }

  predicate AllWords(ws: seq<string>)
  {
    forall k :: 0 <= k < |ws| ==> IsWord(ws[k])
  }

  /** Neither starts nor ends with whitespace. */
  predicate IsTrimmed(s: string)
  {
    s == [] || (!IsSpace(s[0]) && !IsSpace(s[|s| - 1]))
  }

  /** Leading whitespace one longer than that of the rest of the string. */
  lemma TrimStartStep(s: string, r: string)
    requires s != [] && IsSpace(s[0])
    requires |r| <= |s[1..]| && r == s[1..][|s[1..]| - |r|..] && AllSpace(s[1..][..|s[1..]| - |r|])
    ensures r == s[|s| - |r|..] && AllSpace(s[..|s| - |r|])
  {
    assert forall k :: 1 <= k < |s| - |r| ==> s[k] == s[1..][..|s[1..]| - |r|][k - 1];
  }

  /** Trailing whitespace one longer than that of the string without its last character. */
  lemma TrimEndStep(s: string, r: string)
    requires s != [] && IsSpace(s[|s| - 1])
    requires |r| <= |s[..|s| - 1]| && r == s[..|s| - 1][..|r|] && AllSpace(s[..|s| - 1][|r|..])
    ensures r == s[..|r|] && AllSpace(s[|r|..])
  {
    assert forall k :: |r| <= k < |s| - 1 ==> s[k] == s[..|s| - 1][|r|..][k - |r|];
  }

  function TrimStart(s: string): (r: string)
    ensures |r| <= |s| && r == s[|s| - |r|..]
    ensures AllSpace(s[..|s| - |r|])
    ensures r == [] || !IsSpace(r[0])
  {
    if s != [] && IsSpace(s[0]) then
      var r := TrimStart(s[1..]);
      TrimStartStep(s, r);
      r
    else s
  }

  function TrimEnd(s: string): (r: string)
    ensures |r| <= |s| && r == s[..|r|]
    ensures AllSpace(s[|r|..])
    ensures r == [] || !IsSpace(r[|r| - 1])
  {
    if s != [] && IsSpace(s[|s| - 1]) then
      var r := TrimEnd(s[..|s| - 1]);
      TrimEndStep(s, r);
      r
    else s
  }

  /** How much leading whitespace `trim()` removes. */
  function Leading(s: string): (n: nat)
    ensures n <= |s| && AllSpace(s[..n])
    ensures n == |s| || !IsSpace(s[n])
  {
    |s| - |TrimStart(s)|
  }

  /** `s.trim()`: s without its leading and trailing whitespace. */
  function Trim(s: string): (r: string)
    ensures IsTrimmed(r) && |r| <= |s|
  {
    var a := TrimStart(s);
    var r := TrimEnd(a);
    assert r != [] ==> r[0] == a[0];
    r
  }

  /** What `trim()` keeps is the slice of s after its leading whitespace, and only whitespace
      follows it. */
  lemma TrimIsSlice(s: string)
    ensures Leading(s) + |Trim(s)| <= |s|
    ensures Trim(s) == s[Leading(s)..Leading(s) + |Trim(s)|]
    ensures AllSpace(s[Leading(s) + |Trim(s)|..])
  {
    var a := TrimStart(s);
    var r := TrimEnd(a);
    assert Trim(s) == r && Leading(s) == |s| - |a|;
    SliceOfSuffix(s, |s| - |a|, |r|);
  }

  lemma SliceOfSuffix(s: string, n: nat, m: nat)
    requires n + m <= |s|
    ensures s[n..][..m] == s[n..n + m] && s[n..][m..] == s[n + m..]
  {
  }

  lemma {:induction false} TrimStartOfTrimmed(s: string)
    requires s == [] || !IsSpace(s[0])
    ensures TrimStart(s) == s
  {
  }

  lemma {:induction false} TrimEndOfTrimmed(s: string)
    requires s == [] || !IsSpace(s[|s| - 1])
    ensures TrimEnd(s) == s
  {
  }

  /** Trimming text without surrounding whitespace changes nothing. */
  lemma TrimOfTrimmed(s: string)
    requires IsTrimmed(s)
    ensures Trim(s) == s
  {
    TrimStartOfTrimmed(s);
    TrimEndOfTrimmed(s);
  }

  lemma {:induction false} TrimStartSpaces(t: string)
    requires AllSpace(t)
    ensures TrimStart(t) == []
    decreases |t|
  {
    if t != [] {
      assert AllSpace(t[1..]) by {
        assert forall k :: 0 <= k < |t[1..]| ==> t[1..][k] == t[k + 1];
      }
      TrimStartSpaces(t[1..]);
    }
  }

  lemma {:induction false} TrimEndSpaces(s: string, t: string)
    requires (s == [] || !IsSpace(s[|s| - 1])) && AllSpace(t)
    ensures TrimEnd(s + t) == s
    decreases |t|
  {
    if t == [] {
      assert s + t == s;
      TrimEndOfTrimmed(s);
    } else {
      var u := s + t;
      var t' := t[..|t| - 1];
      assert u[..|u| - 1] == s + t';
      assert IsSpace(u[|u| - 1]) by {
        assert u[|u| - 1] == t[|t| - 1];
      }
      assert AllSpace(t') by {
        assert forall k :: 0 <= k < |t'| ==> t'[k] == t[k];
      }
      TrimEndSpaces(s, t');
    }
  }

  /** Trailing whitespace after trimmed text is all that `trim()` removes. */
  lemma TrimTrailingSpaces(s: string, t: string)
    requires IsTrimmed(s) && AllSpace(t)
    ensures Trim(s + t) == s
  {
    if s == [] {
      assert s + t == t;
      TrimStartSpaces(t);
      TrimEndOfTrimmed([]);
    } else {
      TrimStartOfTrimmed(s + t);
      TrimEndSpaces(s, t);
    }
  }

  /** JavaScript's `s.split(/\s+/)`: the maximal runs of non-whitespace in order, preceded by
      an empty element when s starts with whitespace and followed by one when it ends with
      whitespace; the empty string splits to `[""]`. */
  function SplitWs(s: string): (r: seq<string>)
    ensures |r| >= 1
    decreases |s|
  {
    if s == [] then [""]
    else if IsSpace(s[0]) then
      if |s| > 1 && IsSpace(s[1]) then SplitWs(s[1..]) else [""] + SplitWs(s[1..])
    else
      var rest := SplitWs(s[1..]);
      [[s[0]] + rest[0]] + rest[1..]
  }

  /** The parts hold no whitespace, and only the first and the last can be empty: the first
      only when s starts with whitespace. */
  lemma {:induction false} SplitWsShape(s: string)
    ensures forall k :: 0 <= k < |SplitWs(s)| ==> NoSpace(SplitWs(s)[k])
    ensures forall k :: 0 < k < |SplitWs(s)| - 1 ==> SplitWs(s)[k] != ""
    ensures s != [] && !IsSpace(s[0]) ==> SplitWs(s)[0] != ""
    decreases |s|
  {
    if s != [] {
      SplitWsShape(s[1..]);
    }
  }

  /** `ws.join(" ")`. */
  function JoinSpaces(ws: seq<string>): (r: string)
    ensures |r| + 1 >= |ws|
    ensures ws != [] ==> |r| >= |ws[0]|
  {
    if ws == [] then ""
    else if |ws| == 1 then ws[0]
    else JoinSpaces(ws[..|ws| - 1]) + " " + ws[|ws| - 1]
  }

  /** Joining words gives non-empty text with no surrounding whitespace. */
  lemma {:induction false} JoinWordsTrimmed(ws: seq<string>)
    requires AllWords(ws) && ws != []
    ensures JoinSpaces(ws) != [] && IsTrimmed(JoinSpaces(ws))
    ensures JoinSpaces(ws)[0] == ws[0][0]
  {
    if |ws| > 1 {
      JoinWordsTrimmed(ws[..|ws| - 1]);
    }
  }

  lemma {:induction false} JoinSnoc(ws: seq<string>, w: string)
    requires ws != []
    ensures JoinSpaces(ws + [w]) == JoinSpaces(ws) + " " + w
  {
    assert (ws + [w])[..|ws|] == ws;
  }

  /** Joining two non-empty runs of words puts one space between them. */
  lemma {:induction false} JoinAppend(a: seq<string>, b: seq<string>)
    requires a != [] && b != []
    ensures JoinSpaces(a + b) == JoinSpaces(a) + " " + JoinSpaces(b)
    decreases |b|
  {
    if |b| == 1 {
      JoinSnoc(a, b[0]);
    } else {
      var init := b[..|b| - 1];
      JoinAppend(a, init);
      assert a + b == (a + init) + [b[|b| - 1]];
      JoinSnoc(a + init, b[|b| - 1]);
      assert JoinSpaces(b) == JoinSpaces(init) + " " + b[|b| - 1];
    }
  }

  /** A word splits to itself. */
  lemma {:induction false} SplitWord(w: string)
    requires IsWord(w)
    ensures SplitWs(w) == [w]
    decreases |w|
  {
    if |w| > 1 {
      SplitWord(w[1..]);
    } else {
      assert w[1..] == [] && SplitWs(w[1..]) == [""];
    }
    assert [w[0]] + w[1..] == w;
  }

  /** Appending a space and a word to text that ends in a non-space appends that word. */
  lemma {:induction false} SplitSnoc(a: string, w: string)
    requires a != [] && !IsSpace(a[|a| - 1]) && IsWord(w)
    ensures SplitWs(a + " " + w) == SplitWs(a) + [w]
    decreases |a|
  {
    var s := a + " " + w;
    assert s[1..] == (if |a| == 1 then " " + w else a[1..] + " " + w);
    if |a| == 1 {
      var t := " " + w;
      assert t[1..] == w;
      SplitWord(w);
      assert SplitWs(t) == [""] + [w];
    } else {
      SplitSnoc(a[1..], w);
    }
  }

  /** Splitting words joined with single spaces gives the words back. */
  lemma {:induction false} SplitJoin(ws: seq<string>)
    requires AllWords(ws) && ws != []
    ensures SplitWs(JoinSpaces(ws)) == ws
  {
    if |ws| == 1 {
      SplitWord(ws[0]);
    } else {
      var init := ws[..|ws| - 1];
      SplitJoin(init);
      JoinWordsTrimmed(init);
      SplitSnoc(JoinSpaces(init), ws[|ws| - 1]);
      assert init + [ws[|ws| - 1]] == ws;
    }
  }
}
