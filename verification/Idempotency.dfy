/**
 The key of an approval request (internal/usecase/rpc/methods/idempotency.go): the digest of
 requester, method and canonical parameters. Two requests share the bytes that are hashed exactly
 when requester and method are equal and the parameters differ in nothing but field order and
 fields that a later one of the same name overrides.
 */
module Idempotency {
  import opened Wrappers
  import opened Sorting
  import opened Text

  datatype Field = Field(name: string, value: Json)

  /** A JSON text; strings are decoded, and a number is the text its value is printed as. */
  datatype Json =
    | Null
    | Bool(b: bool)
    | Num(text: string)
    | Str(s: string)
    | Arr(items: seq<Json>)
    | Obj(fields: seq<Field>)

  // ---------------------------------------------------------------- an object's members

  predicate HasName(fields: seq<Field>, name: string) {
    exists i :: 0 <= i < |fields| && fields[i].name == name
  }

  /** Position of the last field of that name, the one that json.Unmarshal keeps. */
  function Holder(fields: seq<Field>, name: string): (i: nat)
    requires HasName(fields, name)
    ensures i < |fields| && fields[i].name == name
    ensures forall j | i < j < |fields| :: fields[j].name != name
  {
    var n := |fields| - 1;
    if fields[n].name == name then n else Holder(fields[..n], name)
  }

  /** Every name of an object once. */
  function Names(fields: seq<Field>): (names: seq<string>)
    ensures forall k :: k in names <==> HasName(fields, k)
    ensures forall i, j | 0 <= i < j < |names| :: names[i] != names[j]
  {
    if fields == [] then []
    else
      var n := |fields| - 1;
      var rest := Names(fields[..n]);
      assert forall k :: HasName(fields, k) <==> HasName(fields[..n], k) || k == fields[n].name;
      if fields[n].name in rest then rest else rest + [fields[n].name]
  }

  lemma DistinctCounts(s: seq<string>, t: seq<string>)
    requires forall i, j | 0 <= i < j < |s| :: s[i] != s[j]
    requires forall i, j | 0 <= i < j < |t| :: t[i] != t[j]
    requires forall k :: k in s <==> k in t
    ensures multiset(s) == multiset(t)
  {
    forall k: string ensures multiset(s)[k] == multiset(t)[k] {
      CountsOnce(s, k);
      CountsOnce(t, k);
    }
  }

  lemma {:induction false} CountsOnce(s: seq<string>, k: string)
    requires forall i, j | 0 <= i < j < |s| :: s[i] != s[j]
    ensures multiset(s)[k] == if k in s then 1 else 0
  {
    if s != [] {
      var n := |s| - 1;
      assert s == s[..n] + [s[n]];
      CountsOnce(s[..n], k);
    }
  }

  /** The members in the order in which the encoder writes them. */
  function SortedNames(fields: seq<Field>): (names: seq<string>)
    ensures forall k :: k in names <==> HasName(fields, k)
  {
    var names := SortStrings(Names(fields));
    assert forall k :: k in names <==> k in multiset(names);
    names
  }

  lemma SortedNamesAgree(f: seq<Field>, g: seq<Field>)
    requires forall k :: HasName(f, k) <==> HasName(g, k)
    ensures SortedNames(f) == SortedNames(g)
  {
    hide HasName, SortStrings;
    DistinctCounts(Names(f), Names(g));
    SortIgnoresOrder(Names(f), Names(g));
  }

  // ---------------------------------------------------------------- the canonical text

  /** json.Marshal of the decoded value, which is a map wherever the text has an object. */
  function Canon(j: Json, quote: string -> string): string
    decreases j, 1, 0
  {
    match j
    case Null => "null"
    case Bool(b) => if b then "true" else "false"
    case Num(text) => text
    case Str(s) => quote(s)
    case Arr(items) => "[" + Items(j, 0, quote) + "]"
    case Obj(fields) => "{" + Members(j, SortedNames(fields), quote) + "}"
  }

  /** The elements of an array from the i-th on. */
  function Items(j: Json, i: nat, quote: string -> string): string
    requires j.Arr? && i <= |j.items|
    decreases j, 0, |j.items| - i
  {
    if i == |j.items| then ""
    else Canon(j.items[i], quote) + if i + 1 == |j.items| then "" else "," + Items(j, i + 1, quote)
  }

  function Members(j: Json, names: seq<string>, quote: string -> string): string
    requires j.Obj? && forall k | k in names :: HasName(j.fields, k)
    decreases j, 0, |names|
  {
    if names == [] then ""
    else
      assert names[0] in names;
      quote(names[0]) + ":" + Canon(j.fields[Holder(j.fields, names[0])].value, quote)
      + if |names| == 1 then "" else "," + Members(j, names[1..], quote)
  }

  /** Equal up to field order and overridden fields, at any depth. */
  predicate Same(a: Json, b: Json)
    decreases a
  {
    match a
    case Arr(xs) =>
      b.Arr? && |xs| == |b.items| && forall i | 0 <= i < |xs| :: Same(xs[i], b.items[i])
    case Obj(f) =>
      && b.Obj?
      && (forall i | 0 <= i < |f| :: HasName(b.fields, f[i].name))
      && (forall i | 0 <= i < |b.fields| :: HasName(f, b.fields[i].name))
      && (forall i | 0 <= i < |f| && i == Holder(f, f[i].name) ::
            Same(f[i].value, b.fields[Holder(b.fields, f[i].name)].value))
    case _ => a == b
  }

  predicate NumChar(c: char) {
    '0' <= c <= '9' || c in "+-.e"
  }

  predicate NumText(s: string) {
    s != "" && ('0' <= s[0] <= '9' || s[0] == '-') && forall c | c in s :: NumChar(c)
  }

  predicate WellFormed(j: Json)
    decreases j
  {
    match j
    case Num(text) => NumText(text)
    case Arr(items) => forall i | 0 <= i < |items| :: WellFormed(items[i])
    case Obj(fields) => forall i | 0 <= i < |fields| :: WellFormed(fields[i].value)
    case _ => true
  }

  /** A quoted string starts with a quote, and shows by itself where it ends. */
  ghost predicate Quoting(quote: string -> string) {
    && (forall s :: quote(s) != "" && quote(s)[0] == '"')
    && (forall s, t, x: string, y: string | quote(s) + x == quote(t) + y :: s == t && x == y)
  }

  // Such a quoting exists: a backslash before every quote and backslash.

  function EscapeChar(c: char): (r: string)
    ensures r != "" && r[0] != '"'
  {
    if c in "\"\\" then ['\\', c] else [c]
  }

  function Escape(s: string): string {
    if s == "" then "" else EscapeChar(s[0]) + Escape(s[1..])
  }

  lemma EscapedCharEnds(c: char, d: char, x: string, y: string)
    requires EscapeChar(c) + x == EscapeChar(d) + y
    ensures c == d && x == y
  {
    At(EscapeChar(c), x, 0);
    At(EscapeChar(d), y, 0);
    At(EscapeChar(c), x, 1);
    At(EscapeChar(d), y, 1);
    TailsAgree(EscapeChar(c), x, y);
  }

  lemma {:induction false} EscapeEnds(s: string, t: string, x: string, y: string)
    requires Escape(s) + "\"" + x == Escape(t) + "\"" + y
    ensures s == t && x == y
  {
    hide EscapeChar;
    EscapeText(s, x);
    EscapeText(t, y);
    if s == "" && t == "" {
      TailsAgree("\"", x, y);
    } else if s == "" {
      HeadsAgree("\"", x, EscapeChar(t[0]), Escape(t[1..]) + "\"" + y);
      assert false;
    } else if t == "" {
      HeadsAgree("\"", y, EscapeChar(s[0]), Escape(s[1..]) + "\"" + x);
      assert false;
    } else {
      EscapedCharEnds(s[0], t[0], Escape(s[1..]) + "\"" + x, Escape(t[1..]) + "\"" + y);
      EscapeEnds(s[1..], t[1..], x, y);
      assert s == [s[0]] + s[1..] && t == [t[0]] + t[1..];
    }
  }

  lemma EscapeText(s: string, x: string)
    ensures Escape(s) + "\"" + x == if s == "" then "\"" + x else EscapeChar(s[0]) + (Escape(s[1..]) + "\"" + x)
  {
  }

  lemma QuotingExists()
    ensures Quoting((s: string) => "\"" + Escape(s) + "\"")
  {
    var quote := (s: string) => "\"" + Escape(s) + "\"";
    forall s, t, x: string, y: string | quote(s) + x == quote(t) + y ensures s == t && x == y {
      var u, v := Escape(s) + "\"" + x, Escape(t) + "\"" + y;
      assert quote(s) + x == "\"" + u && quote(t) + y == "\"" + v;
      TailsAgree("\"", u, v);
      EscapeEnds(s, t, x, y);
    }
  }

  // ---------------------------------------------------------------- same meaning, same text

  lemma {:induction false} SameCanon(a: Json, b: Json, quote: string -> string)
    requires Same(a, b)
    ensures Canon(a, quote) == Canon(b, quote)
    decreases a, 1, 0
  {
    match a {
      case Arr(xs) => SameItems(a, b, 0, quote);
      case Obj(f) =>
        assert forall k :: HasName(f, k) <==> HasName(b.fields, k);
        SortedNamesAgree(f, b.fields);
        SameMembers(a, b, SortedNames(f), quote);
      case _ =>
    }
  }

  lemma {:induction false} SameItems(a: Json, b: Json, i: nat, quote: string -> string)
    requires a.Arr? && Same(a, b) && i <= |a.items|
    ensures Items(a, i, quote) == Items(b, i, quote)
    decreases a, 0, |a.items| - i
  {
    if i < |a.items| {
      SameCanon(a.items[i], b.items[i], quote);
      SameItems(a, b, i + 1, quote);
    }
  }

  lemma {:induction false} SameMembers(a: Json, b: Json, names: seq<string>, quote: string -> string)
    requires a.Obj? && Same(a, b)
    requires forall k | k in names :: HasName(a.fields, k) && HasName(b.fields, k)
    ensures Members(a, names, quote) == Members(b, names, quote)
    decreases a, 0, |names|
  {
    if names != [] {
      assert names[0] in names;
      var i := Holder(a.fields, names[0]);
      SameCanon(a.fields[i].value, b.fields[Holder(b.fields, names[0])].value, quote);
      SameMembers(a, b, names[1..], quote);
    }
  }

  // ---------------------------------------------------------------- same text, same meaning

  /** What follows a value inside a longer text. */
  predicate Stop(s: string) {
    s == "" || s[0] in ",]}"
  }

  lemma FirstChar(j: Json, quote: string -> string)
    requires WellFormed(j) && Quoting(quote)
    ensures Canon(j, quote) != ""
    ensures Canon(j, quote)[0] !in ",]}"
    ensures j.Null? <==> Canon(j, quote)[0] == 'n'
    ensures j.Bool? <==> Canon(j, quote)[0] in "tf"
    ensures j.Num? <==> Canon(j, quote)[0] in "-0123456789"
    ensures j.Str? <==> Canon(j, quote)[0] == '"'
    ensures j.Arr? <==> Canon(j, quote)[0] == '['
    ensures j.Obj? <==> Canon(j, quote)[0] == '{'
  {
    hide NumChar;
  }

  lemma TailsAgree(p: string, x: string, y: string)
    requires p + x == p + y
    ensures x == y
  {
    assert (p + x)[|p|..] == x && (p + y)[|p|..] == y;
  }

  lemma At(a: string, x: string, i: nat)
    ensures i < |a + x| ==> (a + x)[i] == if i < |a| then a[i] else x[i - |a|]
  {
  }

  lemma HeadsAgree(a: string, x: string, b: string, y: string)
    requires a != "" && b != "" && a + x == b + y
    ensures a[0] == b[0]
  {
    At(a, x, 0);
    At(b, y, 0);
  }

  lemma NotLonger(a: string, b: string, x: string, y: string)
    requires (forall i | 0 <= i < |b| :: NumChar(b[i])) && Stop(x) && a + x == b + y
    ensures |b| <= |a|
  {
    At(a, x, |a|);
    At(b, y, |a|);
    if |a| < |b| {
      assert false;
    }
  }

  /** A number runs up to the first character that cannot belong to it. */
  lemma NumEnds(a: string, b: string, x: string, y: string)
    requires (forall c | c in a :: NumChar(c)) && (forall c | c in b :: NumChar(c))
    requires Stop(x) && Stop(y) && a + x == b + y
    ensures a == b && x == y
  {
    NotLonger(a, b, x, y);
    NotLonger(b, a, y, x);
    assert (a + x)[..|a|] == a && (b + y)[..|b|] == b;
    TailsAgree(a, x, y);
  }

  lemma ReadableScalar(a: Json, b: Json, x: string, y: string, quote: string -> string)
    requires WellFormed(a) && WellFormed(b) && Quoting(quote) && !a.Arr? && !a.Obj?
    requires Stop(x) && Stop(y) && Canon(a, quote) + x == Canon(b, quote) + y
    ensures a == b && x == y
  {
    FirstChar(a, quote);
    FirstChar(b, quote);
    HeadsAgree(Canon(a, quote), x, Canon(b, quote), y);
    if a.Num? {
      NumEnds(a.text, b.text, x, y);
    } else if !a.Str? {
      TailsAgree(Canon(a, quote), x, y);
    }
  }

  lemma Regroup(p: string, u: string, q: string, x: string)
    ensures p + u + q + x == p + (u + q + x)
  {
  }

  /** The text between an array's or object's brackets, and after. */
  lemma Unwrap(a: Json, b: Json, x: string, y: string, quote: string -> string)
    requires Canon(a, quote) + x == Canon(b, quote) + y
    ensures a.Arr? && b.Arr? ==> Items(a, 0, quote) + "]" + x == Items(b, 0, quote) + "]" + y
    ensures a.Obj? && b.Obj? ==>
      Members(a, SortedNames(a.fields), quote) + "}" + x == Members(b, SortedNames(b.fields), quote) + "}" + y
  {
    hide Items, Members, SortedNames;
    if a.Arr? && b.Arr? {
      var u, v := Items(a, 0, quote), Items(b, 0, quote);
      Regroup("[", u, "]", x);
      Regroup("[", v, "]", y);
      TailsAgree("[", u + "]" + x, v + "]" + y);
    } else if a.Obj? && b.Obj? {
      var u, v := Members(a, SortedNames(a.fields), quote), Members(b, SortedNames(b.fields), quote);
      Regroup("{", u, "}", x);
      Regroup("{", v, "}", y);
      TailsAgree("{", u + "}" + x, v + "}" + y);
    }
  }

  lemma SameArray(a: Json, b: Json)
    requires a.Arr? && b.Arr? && |a.items| == |b.items| && forall k | 0 <= k < |a.items| :: Same(a.items[k], b.items[k])
    ensures Same(a, b)
  {
  }

  /** A canonical text can be read in only one way. */
  lemma {:induction false} Readable(a: Json, b: Json, x: string, y: string, quote: string -> string)
    requires WellFormed(a) && WellFormed(b) && Quoting(quote)
    requires Stop(x) && Stop(y) && Canon(a, quote) + x == Canon(b, quote) + y
    ensures Same(a, b) && x == y
    decreases a, 1, 0
  {
    if !a.Arr? && !a.Obj? {
      ReadableScalar(a, b, x, y, quote);
    } else {
      hide Canon, WellFormed, Quoting, Same, Items, Members, SortedNames, HasName;
      FirstChar(a, quote);
      FirstChar(b, quote);
      HeadsAgree(Canon(a, quote), x, Canon(b, quote), y);
      Unwrap(a, b, x, y, quote);
      if a.Arr? {
        ReadableItems(a, b, 0, x, y, quote);
        SameArray(a, b);
      } else {
        ReadableMembers(a, b, SortedNames(a.fields), SortedNames(b.fields), x, y, quote);
        ReadObject(a, b);
      }
    }
  }

  /** What remains of an array's text after its i-th element. */
  function AfterItem(j: Json, i: nat, x: string, quote: string -> string): (s: string)
    requires j.Arr? && i < |j.items|
    ensures Stop(s)
  {
    if i + 1 == |j.items| then "]" + x else "," + Items(j, i + 1, quote) + "]" + x
  }

  lemma ItemsText(j: Json, i: nat, x: string, quote: string -> string)
    requires j.Arr? && i <= |j.items| && WellFormed(j) && Quoting(quote)
    ensures i == |j.items| ==> Items(j, i, quote) + "]" + x == "]" + x
    ensures i < |j.items| ==>
      && WellFormed(j.items[i])
      && Items(j, i, quote) + "]" + x == Canon(j.items[i], quote) + AfterItem(j, i, x, quote)
      && Canon(j.items[i], quote) != "" && Canon(j.items[i], quote)[0] != ']'
  {
    hide Canon, Quoting;
    if i < |j.items| {
      FirstChar(j.items[i], quote);
    }
  }

  lemma {:induction false} ReadableItems(a: Json, b: Json, i: nat, x: string, y: string, quote: string -> string)
    requires a.Arr? && b.Arr? && WellFormed(a) && WellFormed(b) && Quoting(quote) && i <= |a.items| && i <= |b.items|
    requires Items(a, i, quote) + "]" + x == Items(b, i, quote) + "]" + y
    ensures |a.items| == |b.items| && x == y
    ensures forall k | i <= k < |a.items| :: Same(a.items[k], b.items[k])
    decreases a, 0, |a.items| - i
  {
    hide Quoting, Canon, Same;
    ItemsText(a, i, x, quote);
    ItemsText(b, i, y, quote);
    if i == |a.items| && i == |b.items| {
      TailsAgree("]", x, y);
    } else if i == |a.items| {
      HeadsAgree("]", x, Canon(b.items[i], quote), AfterItem(b, i, y, quote));
      assert false;
    } else if i == |b.items| {
      HeadsAgree("]", y, Canon(a.items[i], quote), AfterItem(a, i, x, quote));
      assert false;
    } else {
      var u, v := AfterItem(a, i, x, quote), AfterItem(b, i, y, quote);
      Readable(a.items[i], b.items[i], u, v, quote);
      if i + 1 < |a.items| && i + 1 < |b.items| {
        assert u == "," + (Items(a, i + 1, quote) + "]" + x) && v == "," + (Items(b, i + 1, quote) + "]" + y);
        TailsAgree(",", Items(a, i + 1, quote) + "]" + x, Items(b, i + 1, quote) + "]" + y);
        ReadableItems(a, b, i + 1, x, y, quote);
      } else {
        assert u[0] == v[0];
        assert i + 1 == |a.items| && i + 1 == |b.items|;
        TailsAgree("]", x, y);
      }
    }
  }

  /** The value an object's member ends up with. */
  function ValueOf(j: Json, name: string): (v: Json)
    requires j.Obj? && HasName(j.fields, name)
    ensures v < j
    ensures WellFormed(j) ==> WellFormed(v)
  {
    j.fields[Holder(j.fields, name)].value
  }

  function AfterMember(j: Json, names: seq<string>, x: string, quote: string -> string): (s: string)
    requires j.Obj? && names != [] && forall k | k in names :: HasName(j.fields, k)
    ensures Stop(s)
  {
    if |names| == 1 then "}" + x else "," + Members(j, names[1..], quote) + "}" + x
  }

  lemma MembersText(j: Json, names: seq<string>, x: string, quote: string -> string)
    requires j.Obj? && Quoting(quote) && forall k | k in names :: HasName(j.fields, k)
    ensures names == [] ==> Members(j, names, quote) + "}" + x == "}" + x
    ensures names != [] ==>
      && names[0] in names && HasName(j.fields, names[0])
      && Members(j, names, quote) + "}" + x
         == quote(names[0]) + (":" + (Canon(ValueOf(j, names[0]), quote) + AfterMember(j, names, x, quote)))
      && quote(names[0]) != "" && quote(names[0])[0] != '}'
  {
    hide Canon, HasName;
    if names != [] {
      assert names[0] in names;
      var c := Canon(ValueOf(j, names[0]), quote);
      if |names| == 1 {
        RegroupMember(quote(names[0]), c, "", x);
        assert "" + "}" + x == "}" + x;
      } else {
        RegroupMember(quote(names[0]), c, "," + Members(j, names[1..], quote), x);
      }
    }
  }

  lemma RegroupMember(q: string, c: string, rest: string, x: string)
    ensures q + ":" + c + rest + "}" + x == q + (":" + (c + (rest + "}" + x)))
  {
  }

  lemma QuotesAgree(s: string, t: string, x: string, y: string, quote: string -> string)
    requires Quoting(quote) && quote(s) + x == quote(t) + y
    ensures s == t && x == y
  {
  }

  lemma {:induction false} ReadableMembers(a: Json, b: Json, ks: seq<string>, ls: seq<string>, x: string, y: string,
                                           quote: string -> string)
    requires a.Obj? && b.Obj? && WellFormed(a) && WellFormed(b) && Quoting(quote)
    requires (forall k | k in ks :: HasName(a.fields, k)) && (forall l | l in ls :: HasName(b.fields, l))
    requires Members(a, ks, quote) + "}" + x == Members(b, ls, quote) + "}" + y
    ensures ks == ls && x == y
    ensures forall k | k in ks :: HasName(b.fields, k) && Same(ValueOf(a, k), ValueOf(b, k))
    decreases a, 0, |ks|, 0
  {
    hide Canon, Same, ValueOf, WellFormed, HasName, Members, Quoting;
    MembersText(a, ks, x, quote);
    MembersText(b, ls, y, quote);
    if ks == [] && ls == [] {
      TailsAgree("}", x, y);
    } else if ks == [] {
      HeadsAgree("}", x, quote(ls[0]), ":" + (Canon(ValueOf(b, ls[0]), quote) + AfterMember(b, ls, y, quote)));
      assert false;
    } else if ls == [] {
      HeadsAgree("}", y, quote(ks[0]), ":" + (Canon(ValueOf(a, ks[0]), quote) + AfterMember(a, ks, x, quote)));
      assert false;
    } else {
      var u, v := AfterMember(a, ks, x, quote), AfterMember(b, ls, y, quote);
      var s, t := Canon(ValueOf(a, ks[0]), quote) + u, Canon(ValueOf(b, ls[0]), quote) + v;
      QuotesAgree(ks[0], ls[0], ":" + s, ":" + t, quote);
      TailsAgree(":", s, t);
      Readable(ValueOf(a, ks[0]), ValueOf(b, ls[0]), u, v, quote);
      RestOfMembers(a, b, ks, ls, x, y, quote);
    }
  }

  lemma {:induction false} RestOfMembers(a: Json, b: Json, ks: seq<string>, ls: seq<string>, x: string, y: string,
                                         quote: string -> string)
    requires a.Obj? && b.Obj? && WellFormed(a) && WellFormed(b) && Quoting(quote) && ks != [] && ls != []
        && ks[0] == ls[0]
    requires (forall k | k in ks :: HasName(a.fields, k)) && (forall l | l in ls :: HasName(b.fields, l))
    requires Same(ValueOf(a, ks[0]), ValueOf(b, ks[0]))
    requires AfterMember(a, ks, x, quote) == AfterMember(b, ls, y, quote)
    ensures ks == ls && x == y
    ensures forall k | k in ks :: HasName(b.fields, k) && Same(ValueOf(a, k), ValueOf(b, k))
    decreases a, 0, |ks| - 1, 1
  {
    hide Canon, Same, ValueOf, WellFormed, HasName, Quoting, Members;
    var u, v := AfterMember(a, ks, x, quote), AfterMember(b, ls, y, quote);
    if |ks| > 1 && |ls| > 1 {
      var p, q := Members(a, ks[1..], quote) + "}" + x, Members(b, ls[1..], quote) + "}" + y;
      assert u == "," + p && v == "," + q;
      TailsAgree(",", p, q);
      ReadableMembers(a, b, ks[1..], ls[1..], x, y, quote);
    } else {
      assert u[0] == v[0];
      assert |ks| == 1 && |ls| == 1;
      TailsAgree("}", x, y);
    }
    assert ks == [ks[0]] + ks[1..] && ls == [ls[0]] + ls[1..];
  }

  lemma ValueHeld(j: Json, name: string)
    requires j.Obj? && HasName(j.fields, name)
    ensures ValueOf(j, name) == j.fields[Holder(j.fields, name)].value
  {
  }

  lemma NameAt(fields: seq<Field>, i: nat)
    requires i < |fields|
    ensures HasName(fields, fields[i].name)
  {
  }

  lemma ReadObject(a: Json, b: Json)
    requires a.Obj? && b.Obj? && SortedNames(a.fields) == SortedNames(b.fields)
    requires forall k | k in SortedNames(a.fields) :: Same(ValueOf(a, k), ValueOf(b, k))
    ensures Same(a, b)
  {
    hide SortedNames, ValueOf, HasName, Holder;
    var names := SortedNames(a.fields);
    forall i | 0 <= i < |a.fields|
      ensures HasName(b.fields, a.fields[i].name)
      ensures i == Holder(a.fields, a.fields[i].name) ==>
        Same(a.fields[i].value, b.fields[Holder(b.fields, a.fields[i].name)].value)
    {
      var k := a.fields[i].name;
      NameAt(a.fields, i);
      assert k in names;
      ValueHeld(a, k);
      ValueHeld(b, k);
    }
    forall i | 0 <= i < |b.fields| ensures HasName(a.fields, b.fields[i].name) {
      NameAt(b.fields, i);
      assert b.fields[i].name in names;
    }
  }

  /** The canonical texts of two parameters are equal exactly when the parameters mean the same. */
  lemma CanonExactly(a: Json, b: Json, quote: string -> string)
    requires WellFormed(a) && WellFormed(b) && Quoting(quote)
    ensures Canon(a, quote) == Canon(b, quote) <==> Same(a, b)
  {
    if Same(a, b) {
      SameCanon(a, b, quote);
    }
    if Canon(a, quote) == Canon(b, quote) {
      Readable(a, b, "", "", quote);
    }
  }

  // ---------------------------------------------------------------- reordering

  predicate Distinct(fields: seq<Field>) {
    forall i, j | 0 <= i < j < |fields| :: fields[i].name != fields[j].name
  }

  /** The same document with the fields of any of its objects in another order. */
  ghost predicate Reordered(a: Json, b: Json)
    decreases a
  {
    match a
    case Arr(xs) => b.Arr? && |xs| == |b.items| && forall i | 0 <= i < |xs| :: Reordered(xs[i], b.items[i])
    case Obj(f) =>
      && b.Obj? && Distinct(f) && Distinct(b.fields)
      && (forall i | 0 <= i < |f| :: exists j ::
            0 <= j < |b.fields| && b.fields[j].name == f[i].name && Reordered(f[i].value, b.fields[j].value))
      && (forall j | 0 <= j < |b.fields| :: HasName(f, b.fields[j].name))
    case _ => a == b
  }

  lemma {:induction false} ReorderedSame(a: Json, b: Json)
    requires Reordered(a, b)
    ensures Same(a, b)
    decreases a
  {
    match a {
      case Arr(xs) =>
        forall i | 0 <= i < |xs| ensures Same(xs[i], b.items[i]) {
          ReorderedSame(xs[i], b.items[i]);
        }
      case Obj(f) =>
        forall i | 0 <= i < |f|
          ensures HasName(b.fields, f[i].name) && Same(f[i].value, b.fields[Holder(b.fields, f[i].name)].value)
        {
          var j :| 0 <= j < |b.fields| && b.fields[j].name == f[i].name && Reordered(f[i].value, b.fields[j].value);
          assert HasName(b.fields, f[i].name);
          assert Holder(b.fields, f[i].name) == j;
          ReorderedSame(f[i].value, b.fields[j].value);
        }
      case _ =>
    }
  }

  // ---------------------------------------------------------------- how the text looks

  /** Each name once, in ascending order. */
  lemma NamesAscend(fields: seq<Field>)
    ensures var names := SortedNames(fields);
            forall i, j | 0 <= i < j < |names| :: LessEq(names[i], names[j]) && names[i] != names[j]
  {
    hide HasName, LessEq;
    var names, sorted := Names(fields), SortedNames(fields);
    forall i, j | 0 <= i < j < |sorted| ensures sorted[i] != sorted[j] {
      assert sorted == sorted[..j] + [sorted[j]] + sorted[j + 1..];
      assert multiset(sorted) == multiset(sorted[..j]) + multiset{sorted[j]} + multiset(sorted[j + 1..]);
      assert sorted[i] == sorted[..j][i] && sorted[..j][i] in multiset(sorted[..j]);
      CountsOnce(names, sorted[j]);
    }
  }

  /**
   Scalars, and objects and arrays of up to two values; fields come by name, and of two with one
   name the later counts.
   */
  lemma CanonText(a: string, x: Json, b: string, y: Json, quote: string -> string)
    requires LessEq(a, b) && a != b
    ensures var u, v := Canon(x, quote), Canon(y, quote);
            && Canon(Arr([x, y]), quote) == "[" + (u + ("," + v)) + "]"
            && Canon(Obj([Field(b, y), Field(a, x)]), quote)
               == "{" + (quote(a) + ":" + u + ("," + (quote(b) + ":" + v))) + "}"
            && Canon(Obj([Field(a, x), Field(a, y)]), quote) == "{" + (quote(a) + ":" + v) + "}"
            && Canon(Arr([]), quote) == "[]" && Canon(Obj([]), quote) == "{}"
    ensures Canon(Null, quote) == "null"
    ensures Canon(Bool(true), quote) == "true" && Canon(Bool(false), quote) == "false"
    ensures Canon(Num(a), quote) == a && Canon(Str(a), quote) == quote(a)
  {
    ArrayText(x, y, quote);
    TwoNames(a, x, b, y);
    TwoMembers(a, x, b, y, quote);
    OneName(a, x, y);
    OneMember(a, x, y, quote);
    NoNames();
    hide SortedNames, LessEq, Items, Members;
    assert Items(Arr([]), 0, quote) == "" && Members(Obj([]), [], quote) == "" by { Nothing(quote); }
  }

  lemma Nothing(quote: string -> string)
    ensures Items(Arr([]), 0, quote) == "" && Members(Obj([]), [], quote) == ""
  {
  }

  lemma ArrayText(x: Json, y: Json, quote: string -> string)
    ensures Items(Arr([x, y]), 0, quote) == Canon(x, quote) + ("," + Canon(y, quote))
  {
    var j := Arr([x, y]);
    hide Canon;
    assert Items(j, 1, quote) == Canon(y, quote) + "";
    assert Items(j, 0, quote) == Canon(x, quote) + ("," + Items(j, 1, quote));
  }

  lemma TwoMembers(a: string, x: Json, b: string, y: Json, quote: string -> string)
    requires a != b
    ensures var j := Obj([Field(b, y), Field(a, x)]);
            && HasName(j.fields, a) && HasName(j.fields, b)
            && Members(j, [a, b], quote)
               == quote(a) + ":" + Canon(x, quote) + ("," + (quote(b) + ":" + Canon(y, quote)))
  {
    var j := Obj([Field(b, y), Field(a, x)]);
    assert HasName(j.fields, a) by { assert j.fields[1].name == a; }
    assert HasName(j.fields, b) by { assert j.fields[0].name == b; }
    assert Holder(j.fields, a) == 1 && Holder(j.fields, b) == 0;
    hide Canon, HasName, Holder;
    assert [a, b][1..] == [b];
    assert Members(j, [b], quote) == quote(b) + ":" + Canon(y, quote) + "";
    assert Members(j, [a, b], quote) == quote(a) + ":" + Canon(x, quote) + ("," + Members(j, [b], quote));
  }

  lemma OneMember(a: string, x: Json, y: Json, quote: string -> string)
    ensures var j := Obj([Field(a, x), Field(a, y)]);
            HasName(j.fields, a) && Members(j, [a], quote) == quote(a) + ":" + Canon(y, quote)
  {
    var j := Obj([Field(a, x), Field(a, y)]);
    assert HasName(j.fields, a) by { assert j.fields[1].name == a; }
    assert Holder(j.fields, a) == 1;
    hide Canon, HasName, Holder;
    assert Members(j, [a], quote) == quote(a) + ":" + Canon(y, quote) + "";
  }

  lemma TwoNames(a: string, x: Json, b: string, y: Json)
    requires LessEq(a, b) && a != b
    ensures SortedNames([Field(b, y), Field(a, x)]) == [a, b]
  {
    var fields := [Field(b, y), Field(a, x)];
    NamesOf(fields, a, b);
    NamesAscend(fields);
    hide SortedNames, LessEq, HasName;
    DistinctCounts(SortedNames(fields), [a, b]);
    assert Sorted([a, b]) && Sorted(SortedNames(fields));
    SortedUnique(SortedNames(fields), [a, b]);
  }

  lemma NamesOf(fields: seq<Field>, a: string, b: string)
    requires |fields| == 2 && {fields[0].name, fields[1].name} == {a, b}
    ensures forall k :: HasName(fields, k) <==> k in [a, b]
  {
    assert fields[0].name in {a, b} && fields[1].name in {a, b};
    assert a in {fields[0].name, fields[1].name} && b in {fields[0].name, fields[1].name};
  }

  lemma OneName(a: string, x: Json, y: Json)
    ensures SortedNames([Field(a, x), Field(a, y)]) == [a]
  {
    var fields := [Field(a, x), Field(a, y)];
    NamesOf(fields, a, a);
    NamesAscend(fields);
    hide SortedNames, LessEq, HasName;
    DistinctCounts(SortedNames(fields), [a]);
    assert Sorted([a]) && Sorted(SortedNames(fields));
    SortedUnique(SortedNames(fields), [a]);
  }

  lemma NoNames()
    ensures SortedNames([]) == []
  {
    assert Names([]) == [];
    assert SortStrings([]) == [];
  }

  // ---------------------------------------------------------------- the key

  /** The raw parameters: absent, not JSON, or a document. */
  datatype Params = Absent | Malformed | Document(json: Json)

  const NUL := 0 as char

  function Canonicalize(params: Params, quote: string -> string): Option<string> {
    match params
    case Absent => Some("null")
    case Malformed => None
    case Document(j) => Some(Canon(j, quote))
  }

  function PreHash(requester: string, method_: string, canonical: string): string {
    requester + [NUL] + method_ + [NUL] + canonical
  }

  /** The digest is any function of the bytes. */
  function ComputeIdempotencyKey(requester: string, method_: string, params: Params,
                                 quote: string -> string, digest: string -> string): Option<string> {
    var canonical := Canonicalize(params, quote);
    if canonical.None? then None else Some(digest(PreHash(requester, method_, canonical.value)))
  }

  predicate Usable(params: Params) {
    !params.Malformed? && (params.Document? ==> WellFormed(params.json))
  }

  /** Absent parameters stand for null. */
  function Meaning(params: Params): Json {
    if params.Document? then params.json else Null
  }

  /**
   What is hashed: the requester up to the first NUL, the method up to the next, and the canonical
   parameters; absent ones count as null, and those that are no JSON give no key.
   */
  lemma KeyHashes(requester: string, method_: string, params: Params, quote: string -> string,
                  digest: string -> string)
    requires NUL !in requester && NUL !in method_
    ensures var key := ComputeIdempotencyKey(requester, method_, params, quote, digest);
            && (key.None? <==> params.Malformed?)
            && (key.Some? ==>
                  exists bytes :: key.value == digest(bytes)
                    && IndexChar(bytes, NUL) == |requester| && bytes[..|requester|] == requester
                    && bytes[|requester| + 1..] == method_ + [NUL] + Canon(Meaning(params), quote))
  {
    assert Canon(Null, quote) == "null";
    hide Canon, IndexChar;
    if !params.Malformed? {
      var canonical := Canon(Meaning(params), quote);
      var bytes := PreHash(requester, method_, canonical);
      assert bytes == requester + [NUL] + (method_ + [NUL] + canonical);
      IndexCharIs(requester, NUL, method_ + [NUL] + canonical);
      assert bytes[..|requester|] == requester && bytes[|requester| + 1..] == method_ + [NUL] + canonical;
      assert ComputeIdempotencyKey(requester, method_, params, quote, digest) == Some(digest(bytes));
    }
  }

  /**
   The hashed bytes of two requests are equal exactly when they come from the same requester, for
   the same method, with parameters that mean the same.
   */
  lemma PreHashExactly(r1: string, m1: string, p1: Params, r2: string, m2: string, p2: Params, quote: string -> string)
    requires NUL !in r1 && NUL !in r2 && NUL !in m1 && NUL !in m2
    requires Usable(p1) && Usable(p2) && Quoting(quote)
    ensures PreHash(r1, m1, Canonicalize(p1, quote).value) == PreHash(r2, m2, Canonicalize(p2, quote).value)
       <==> r1 == r2 && m1 == m2 && Same(Meaning(p1), Meaning(p2))
  {
    hide Quoting, Same, WellFormed, Canon;
    CanonMeaning(p1, quote);
    CanonMeaning(p2, quote);
    CanonExactly(Meaning(p1), Meaning(p2), quote);
    var c1, c2 := Canonicalize(p1, quote).value, Canonicalize(p2, quote).value;
    var x1, x2 := m1 + [NUL] + c1, m2 + [NUL] + c2;
    assert PreHash(r1, m1, c1) == r1 + [NUL] + x1 && PreHash(r2, m2, c2) == r2 + [NUL] + x2;
    if PreHash(r1, m1, c1) == PreHash(r2, m2, c2) {
      SeparatorSplits(r1, NUL, x1, r2, x2);
      SeparatorSplits(m1, NUL, c1, m2, c2);
    }
  }

  lemma CanonMeaning(p: Params, quote: string -> string)
    requires Usable(p)
    ensures WellFormed(Meaning(p)) && Canonicalize(p, quote) == Some(Canon(Meaning(p), quote))
  {
  }

  /** Reordering object fields at any depth leaves the key as it is. */
  lemma KeyIgnoresFieldOrder(requester: string, method_: string, a: Json, b: Json,
                             quote: string -> string, digest: string -> string)
    requires Reordered(a, b)
    ensures ComputeIdempotencyKey(requester, method_, Document(a), quote, digest)
         == ComputeIdempotencyKey(requester, method_, Document(b), quote, digest)
  {
    ReorderedSame(a, b);
    SameCanon(a, b, quote);
  }

  /** With a collision-free digest, different requesters or methods never share a key. */
  lemma KeysApart(r1: string, m1: string, p1: Params, r2: string, m2: string, p2: Params,
                  quote: string -> string, digest: string -> string)
    requires NUL !in r1 && NUL !in r2 && NUL !in m1 && NUL !in m2
    requires !p1.Malformed? && !p2.Malformed?
    requires forall s, t | digest(s) == digest(t) :: s == t
    ensures ComputeIdempotencyKey(r1, m1, p1, quote, digest) == ComputeIdempotencyKey(r2, m2, p2, quote, digest) ==>
            r1 == r2 && m1 == m2
  {
    hide Canon;
    var c1, c2 := Canonicalize(p1, quote).value, Canonicalize(p2, quote).value;
    var x1, x2 := m1 + [NUL] + c1, m2 + [NUL] + c2;
    assert PreHash(r1, m1, c1) == r1 + [NUL] + x1 && PreHash(r2, m2, c2) == r2 + [NUL] + x2;
    if PreHash(r1, m1, c1) == PreHash(r2, m2, c2) {
      SeparatorSplits(r1, NUL, x1, r2, x2);
      SeparatorSplits(m1, NUL, c1, m2, c2);
    }
  }
}
