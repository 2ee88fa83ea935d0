/**
 The string operations of the Go standard library that the codec and the list parsers call.

 A Go string is a sequence of bytes. Here one `char` stands for one byte; no lemma relies on
 a character being below 256, so everything holds for every byte string, valid UTF-8 or not.
 */
module Text {

  predicate HasSuffix(s: string, p: string) {
    |p| <= |s| && s[|s| - |p|..] == p
  }

  function TrimPrefix(s: string, p: string): string {
    if p <= s then s[|p|..] else s
  }

  predicate MatchAt(s: string, p: string, i: nat) {
    i + |p| <= |s| && s[i..i + |p|] == p
  }

  function IndexFrom(s: string, p: string, i: nat): (r: int)
    requires i <= |s|
    ensures r == -1 || i <= r
    ensures r >= 0 ==> MatchAt(s, p, r)
    ensures forall j: nat | i <= j && (r < 0 || j < r) :: !MatchAt(s, p, j)
    decreases |s| - i
  {
    if MatchAt(s, p, i) then i
    else if i == |s| then -1
    else IndexFrom(s, p, i + 1)
  }

  /** Position of the first occurrence of p in s, -1 if there is none. */
  function Index(s: string, p: string): (r: int)
    ensures r == -1 || 0 <= r
    ensures r >= 0 ==> MatchAt(s, p, r)
    ensures forall j: nat | r < 0 || j < r :: !MatchAt(s, p, j)
  {
    IndexFrom(s, p, 0)
  }

  lemma IndexIs(s: string, p: string, i: nat)
    requires MatchAt(s, p, i)
    requires forall j: nat | j < i :: !MatchAt(s, p, j)
    ensures Index(s, p) == i
  {
  }

  /** Position of the first occurrence of c in s, -1 if there is none. */
  function IndexChar(s: string, c: char): (r: int)
    ensures -1 <= r < |s|
    ensures r >= 0 ==> s[r] == c && c !in s[..r]
    ensures r == -1 <==> c !in s
  {
    if s == "" then -1
    else if s[0] == c then 0
    else
      var r := IndexChar(s[1..], c);
      assert s == [s[0]] + s[1..];
      assert r >= 0 ==> s[..r + 1] == [s[0]] + s[1..][..r];
      if r < 0 then -1 else r + 1
  }

  lemma {:induction false} IndexCharIs(a: string, c: char, b: string)
    requires c !in a
    ensures IndexChar(a + [c] + b, c) == |a|
  {
    var s := a + [c] + b;
    if a != "" {
      IndexCharIs(a[1..], c, b);
      assert s[1..] == a[1..] + [c] + b;
    }
  }

  /** Text up to the first separator determines both sides of it. */
  lemma SeparatorSplits(a: string, c: char, x: string, b: string, y: string)
    requires c !in a && c !in b && a + [c] + x == b + [c] + y
    ensures a == b && x == y
  {
    hide IndexChar;
    var s, t := a + [c] + x, b + [c] + y;
    IndexCharIs(a, c, x);
    IndexCharIs(b, c, y);
    assert s[..|a|] == a && t[..|b|] == b;
    assert s[|a| + 1..] == x && t[|b| + 1..] == y;
  }

  // ---------------------------------------------------------------- splitting

  /** strings.Split with a one-byte separator. */
  function Split(s: string, sep: char): (parts: seq<string>)
    ensures parts != []
    ensures forall p | p in parts :: sep !in p
    ensures forall p | p in parts :: |p| <= |s|
  {
    var i := IndexChar(s, sep);
    if i < 0 then [s] else [s[..i]] + Split(s[i + 1..], sep)
  }

  function Join(parts: seq<string>, sep: char): string {
    if parts == [] then ""
    else if |parts| == 1 then parts[0]
    else parts[0] + [sep] + Join(parts[1..], sep)
  }

  lemma SplitFirst(a: string, sep: char, rest: string)
    requires sep !in a
    ensures Split(a + [sep] + rest, sep) == [a] + Split(rest, sep)
  {
    var s := a + [sep] + rest;
    IndexCharIs(a, sep, rest);
    assert s[..|a|] == a;
    assert s[|a| + 1..] == rest;
  }

  lemma {:induction false} SplitJoin(parts: seq<string>, sep: char)
    requires parts != []
    requires forall p | p in parts :: sep !in p
    ensures Split(Join(parts, sep), sep) == parts
  {
    if |parts| == 1 {
      assert parts == [parts[0]];
    } else {
      SplitFirst(parts[0], sep, Join(parts[1..], sep));
      SplitJoin(parts[1..], sep);
      assert parts == [parts[0]] + parts[1..];
    }
  }

  // ---------------------------------------------------------------- white space

  predicate AsciiSpace(c: char) {
    c == ' ' || c == '\t' || c == '\n' || c == '\U{0B}' || c == '\U{0C}' || c == '\r'
  }

  /** The two-byte UTF-8 forms of U+0085 and U+00A0. */
  predicate Space2(a: char, b: char) {
    a == '\U{C2}' && (b == '\U{85}' || b == '\U{A0}')
  }

  /** The three-byte UTF-8 forms of the remaining White_Space code points. */
  predicate Space3(a: char, b: char, c: char) {
    || (a == '\U{E1}' && b == '\U{9A}' && c == '\U{80}')
    || (a == '\U{E2}' && b == '\U{80}'
          && ('\U{80}' <= c <= '\U{8A}' || c == '\U{A8}' || c == '\U{A9}' || c == '\U{AF}'))
    || (a == '\U{E2}' && b == '\U{81}' && c == '\U{9F}')
    || (a == '\U{E3}' && b == '\U{80}' && c == '\U{80}')
  }

  /** Length in bytes of the white-space code point s starts with, 0 if it starts with none. */
  function LeadSpace(s: string): (n: nat)
    ensures n <= |s|
  {
    if 1 <= |s| && AsciiSpace(s[0]) then 1
    else if 2 <= |s| && Space2(s[0], s[1]) then 2
    else if 3 <= |s| && Space3(s[0], s[1], s[2]) then 3
    else 0
  }

  /** Length in bytes of the white-space code point s ends with, 0 if it ends with none. */
  function TrailSpace(s: string): (n: nat)
    ensures n <= |s|
  {
    var e := |s|;
    if 1 <= e && AsciiSpace(s[e - 1]) then 1
    else if 2 <= e && Space2(s[e - 2], s[e - 1]) then 2
    else if 3 <= e && Space3(s[e - 3], s[e - 2], s[e - 1]) then 3
    else 0
  }

  function TrimLeft(s: string): (t: string)
    ensures LeadSpace(t) == 0
    ensures |t| <= |s| && t == s[|s| - |t|..]
    ensures LeadSpace(s) == 0 <==> |t| == |s|
    decreases |s|
  {
    if LeadSpace(s) == 0 then s else TrimLeft(s[LeadSpace(s)..])
  }

  function TrimRight(s: string): (t: string)
    ensures TrailSpace(t) == 0
    ensures t <= s
    ensures TrailSpace(s) == 0 <==> |t| == |s|
    decreases |s|
  {
    if TrailSpace(s) == 0 then s else TrimRight(s[..|s| - TrailSpace(s)])
  }

  /** strings.TrimSpace. */
  function TrimSpace(s: string): (t: string)
    ensures Trimmed(t)
    ensures |t| <= |s| && (|t| == |s| ==> t == s)
    ensures Trimmed(s) <==> t == s
  {
    TrimRight(TrimLeft(s))
  }

  predicate Trimmed(s: string) {
    LeadSpace(s) == 0 && TrailSpace(s) == 0
  }

  /** A byte that is neither white space nor part of a longer white-space code point. */
  predicate Solid(c: char) {
    !AsciiSpace(c) && c < '\U{80}'
  }

  lemma LeadSpaceBefore(a: string, c: char, b: string)
    requires Solid(c)
    ensures LeadSpace(a + [c] + b) == LeadSpace(a)
  {
    var s := a + [c] + b;
    assert s[|a|] == c;
    assert forall i | 0 <= i < |a| :: s[i] == a[i];
  }

  lemma TrailSpaceAfter(a: string, c: char, b: string)
    requires Solid(c)
    ensures TrailSpace(a + [c] + b) == TrailSpace(b)
  {
    var s := a + [c] + b;
    assert s[|a|] == c;
    assert forall i | 0 <= i < |b| :: s[|a| + 1 + i] == b[i];
  }

  lemma {:induction false} TrimRightAfter(a: string, c: char, b: string)
    requires Solid(c)
    ensures TrimRight(a + [c] + b) == a + [c] + TrimRight(b)
    decreases |b|
  {
    hide TrailSpace, AsciiSpace;
    var s := a + [c] + b;
    TrailSpaceAfter(a, c, b);
    var n := TrailSpace(b);
    if n > 0 {
      assert s[..|s| - n] == a + [c] + b[..|b| - n];
      TrimRightAfter(a, c, b[..|b| - n]);
    } else {
      assert TrimRight(s) == s;
    }
  }

  lemma TrimSpaceAddsNothing(s: string, c: char)
    requires c !in s
    ensures c !in TrimSpace(s)
  {
    hide LeadSpace, TrailSpace, TrimLeft, TrimRight;
    var t := TrimLeft(s);
    assert forall i | 0 <= i < |t| :: t[i] == s[|s| - |t| + i];
  }

  lemma TrimSpaceNoop(s: string)
    requires Trimmed(s)
    ensures TrimSpace(s) == s && TrimLeft(s) == s && TrimRight(s) == s
  {
  }

  /** Only ASCII white space. */
  predicate Blank(s: string) {
    forall c | c in s :: AsciiSpace(c)
  }

  lemma LeadBeforeBlank(x: string, b: string)
    requires x != "" && Blank(b)
    ensures LeadSpace(x + b) == LeadSpace(x)
  {
    var s := x + b;
    assert forall i | 0 <= i < |x| :: s[i] == x[i];
    assert forall i | 0 <= i < |b| :: s[|x| + i] == b[i] && b[i] in b;
  }

  lemma {:induction false} TrimLeftBlanks(b: string, x: string)
    requires Blank(b) && LeadSpace(x) == 0
    ensures TrimLeft(b + x) == x
    decreases |b|
  {
    if b == "" {
      assert b + x == x;
    } else {
      assert (b + x)[0] == b[0] && b[0] in b;
      assert LeadSpace(b + x) == 1 && (b + x)[1..] == b[1..] + x;
      assert forall i | 0 <= i < |b| - 1 :: b[1..][i] in b;
      TrimLeftBlanks(b[1..], x);
    }
  }

  lemma {:induction false} TrimRightBlanks(x: string, b: string)
    requires Blank(b) && TrailSpace(x) == 0
    ensures TrimRight(x + b) == x
    decreases |b|
  {
    if b == "" {
      assert x + b == x;
    } else {
      var s, n := x + b, |b| - 1;
      assert s[|s| - 1] == b[n] && b[n] in b;
      assert TrailSpace(s) == 1 && s[..|s| - 1] == x + b[..n];
      assert forall i | 0 <= i < n :: b[..n][i] in b;
      TrimRightBlanks(x, b[..n]);
    }
  }

  /** Blanks around a text without white space at its ends go. */
  lemma TrimBlanks(b: string, x: string, b': string)
    requires Blank(b) && Blank(b') && x != "" && Trimmed(x)
    ensures TrimSpace(b + x + b') == x
  {
    hide TrimLeft, TrimRight, LeadSpace, TrailSpace, Blank;
    LeadBeforeBlank(x, b');
    assert b + x + b' == b + (x + b');
    TrimLeftBlanks(b, x + b');
    TrimRightBlanks(x, b');
  }

  lemma TrimAllBlank(b: string)
    requires Blank(b)
    ensures TrimSpace(b) == ""
  {
    TrimLeftBlanks(b, "");
    assert b + "" == b;
  }

  lemma TrimAfter(x: string, b: string)
    requires Blank(b) && x != "" && Trimmed(x)
    ensures TrimSpace(x + b) == x
  {
    hide TrimSpace, Trimmed;
    assert "" + x + b == x + b;
    TrimBlanks("", x, b);
  }

  lemma TrimBefore(b: string, x: string)
    requires Blank(b) && x != "" && Trimmed(x)
    ensures TrimSpace(b + x) == x
  {
    hide TrimSpace, Trimmed;
    assert b + x + "" == b + x;
    TrimBlanks(b, x, "");
  }

  lemma TrailAfterBlank(c: string, v: string)
    requires v != "" && Blank(c)
    ensures TrailSpace(c + v) == TrailSpace(v)
  {
    var s := c + v;
    assert forall i | 0 <= i < |v| :: s[|c| + i] == v[i];
    assert forall i | 0 <= i < |c| :: s[i] == c[i] && c[i] in c;
  }

  // ---------------------------------------------------------------- quotes

  /** strings.Trim(s, "\""): every leading and trailing double quote goes. */
  function StripQuotes(s: string): (t: string)
    ensures Unquoted(t)
    ensures |t| <= |s|
    ensures Unquoted(s) <==> t == s
    decreases |s|
  {
    if s != "" && s[0] == '"' then StripQuotes(s[1..])
    else if s != "" && s[|s| - 1] == '"' then StripQuotes(s[..|s| - 1])
    else s
  }

  lemma {:induction false} StripQuotesAddsNothing(s: string, c: char)
    requires c !in s
    ensures c !in StripQuotes(s)
    decreases |s|
  {
    if s != "" && s[0] == '"' {
      StripQuotesAddsNothing(s[1..], c);
    } else if s != "" && s[|s| - 1] == '"' {
      StripQuotesAddsNothing(s[..|s| - 1], c);
    }
  }

  predicate Unquoted(s: string) {
    s != "" ==> s[0] != '"' && s[|s| - 1] != '"'
  }
}
