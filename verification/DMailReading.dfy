/**
 What the D-Mail parser makes of documents the printer did not write: where each form of the
 closing delimiter ends the frontmatter, which body follows it, how a line is read, and which of
 several lines for one key counts. And the text the printer writes, line by line.
 */
module DMailReading {
  import opened Wrappers
  import opened Text
  import opened Sorting
  import opened DMail
  import opened DMailRoundTrip

  // ---------------------------------------------------------------- the body

  /** The document's opening line, with either line end. */
  function Opening(crlf: bool): string {
    if crlf then "---\r\n" else "---\n"
  }

  /** The result for a frontmatter and a body. */
  function Read(front: string, body: string): Result<Mail, ParseError> {
    var r := AssignAll(Empty(), Pairs(Split(front, '\n')));
    if r.Err? then r
    else if r.value.kind == "" then Err(KindRequired)
    else Ok(r.value.(body := body))
  }

  /** The text after the closing line, less one blank line. */
  function LessOneNewline(text: string): string {
    if text != "" && text[0] == '\n' then text[1..] else text
  }

  lemma PrefixGoes(p: string, s: string)
    ensures TrimPrefix(p + s, p) == s
  {
    assert (p + s)[|p|..] == s;
  }

  lemma NoPrefix(p: string, s: string, i: nat)
    requires i < |p| && i < |s| && p[i] != s[i]
    ensures TrimPrefix(s, p) == s
  {
  }

  lemma OpeningGoes(crlf: bool, rest: string)
    requires !crlf ==> !("---\r\n" <= rest)
    ensures Opens(Opening(crlf) + rest) && AfterOpening(Opening(crlf) + rest) == rest
  {
    if crlf {
      NoPrefix("---\n", "---\r\n" + rest, 3);
      PrefixGoes("---\r\n", rest);
    } else {
      PrefixGoes("---\n", rest);
    }
  }

  lemma LastNewlineGoes(text: string)
    ensures TrimPrefix(text, "\n") == LessOneNewline(text)
  {
    assert "\n" <= text <==> text != "" && text[0] == '\n';
  }

  lemma LongerDashes(text: string)
    requires "\n---\r\n" <= text
    ensures "\n---" <= text
  {
    assert text[..4] == text[..6][..4] == "\n---\r\n"[..4];
  }

  /** A text that starts with a newline and dashes loses those too; any other only one newline. */
  lemma BodyAfterLine(crlf: bool, text: string)
    ensures var body := BodyAfter("\n" + Opening(crlf) + text);
            if "\n---" <= text then |body| < |LessOneNewline(text)| else body == LessOneNewline(text)
  {
    LastNewlineGoes(text);
    if crlf {
      assert "\n" + Opening(crlf) + text == "\n---\r\n" + text;
      NoPrefix("\n---\n", "\n---\r\n" + text, 4);
      PrefixGoes("\n---\r\n", text);
    } else {
      assert "\n" + Opening(crlf) + text == "\n---\n" + text;
      PrefixGoes("\n---\n", text);
      if "\n---\r\n" <= text { LongerDashes(text); }
    }
  }

  lemma BodyAtEnd()
    ensures BodyAfter("\n---") == ""
  {
    assert TrimPrefix("\n---", "\n---\n") == "\n---" && TrimPrefix("\n---", "\n---\r\n") == "\n---";
    assert TrimPrefix("\n---", "\n---") == "";
  }

  /**
   A closing line ended by a newline: the first one in the document counts, and the body is the
   text after it less one newline, exactly unless the text starts with a newline and dashes.
   */
  lemma ClosedByNewline(crlf: bool, front: string, text: string)
    requires var rest := front + "\n---\n" + text;
             && (!crlf ==> !("---\r\n" <= rest))
             && forall j: nat | j < |front| :: !MatchAt(rest, "\n---\n", j)
    ensures var r, body := Parse(Opening(crlf) + (front + "\n---\n" + text)), LessOneNewline(text);
            if "\n---" <= text then r.Ok? ==> |r.value.body| < |body| else r == Read(front, body)
  {
    hide BodyAfter, AssignAll, Pairs, Split, Opens, AfterOpening, LessOneNewline;
    var rest := front + "\n---\n" + text;
    OpeningGoes(crlf, rest);
    assert rest[|front|..|front| + 5] == "\n---\n";
    IndexIs(rest, "\n---\n", |front|);
    assert rest[..|front|] == front && rest[|front|..] == "\n" + "---\n" + text;
    BodyAfterLine(false, text);
    assert Opening(false) == "---\n";
  }

  /** A closing line ended by a carriage return and newline counts if no plain one is there. */
  lemma ClosedByCarriageReturn(crlf: bool, front: string, text: string)
    requires var rest := front + "\n---\r\n" + text;
             && (!crlf ==> !("---\r\n" <= rest))
             && (forall j: nat :: !MatchAt(rest, "\n---\n", j))
             && forall j: nat | j < |front| :: !MatchAt(rest, "\n---\r\n", j)
    ensures var r, body := Parse(Opening(crlf) + (front + "\n---\r\n" + text)), LessOneNewline(text);
            if "\n---" <= text then r.Ok? ==> |r.value.body| < |body| else r == Read(front, body)
  {
    hide BodyAfter, AssignAll, Pairs, Split, Opens, AfterOpening, LessOneNewline;
    var rest := front + "\n---\r\n" + text;
    OpeningGoes(crlf, rest);
    assert rest[|front|..|front| + 6] == "\n---\r\n";
    IndexIs(rest, "\n---\r\n", |front|);
    assert rest[..|front|] == front && rest[|front|..] == "\n" + "---\r\n" + text;
    BodyAfterLine(true, text);
    assert Opening(true) == "---\r\n";
  }

  /** Dashes that end the document close it if nothing before them does; the body is empty. */
  lemma ClosedByEnd(crlf: bool, front: string)
    requires var rest := front + "\n---";
             && (!crlf ==> !("---\r\n" <= rest))
             && (forall j: nat :: !MatchAt(rest, "\n---\n", j))
             && forall j: nat :: !MatchAt(rest, "\n---\r\n", j)
    ensures Parse(Opening(crlf) + (front + "\n---")) == Read(front, "")
  {
    hide BodyAfter, AssignAll, Pairs, Split, Opens, AfterOpening;
    var rest := front + "\n---";
    OpeningGoes(crlf, rest);
    assert rest[|rest| - 4..] == "\n---" && rest[..|front|] == front && rest[|front|..] == "\n---";
    BodyAtEnd();
  }

  /** The three ways a document's frontmatter ends. */
  datatype Closing = ByNewline | ByCarriageReturn | ByEnd

  function Line(c: Closing): string {
    match c
    case ByNewline => "\n---\n"
    case ByCarriageReturn => "\n---\r\n"
    case ByEnd => "\n---"
  }

  ghost predicate ClosesAt(rest: string, c: Closing, front: string, text: string) {
    && rest == front + Line(c) + text
    && (c.ByEnd? ==> text == "")
    && (c.ByNewline? ==> forall j: nat | j < |front| :: !MatchAt(rest, "\n---\n", j))
    && (!c.ByNewline? ==> forall j: nat :: !MatchAt(rest, "\n---\n", j))
    && (c.ByCarriageReturn? ==> forall j: nat | j < |front| :: !MatchAt(rest, "\n---\r\n", j))
    && (c.ByEnd? ==> forall j: nat :: !MatchAt(rest, "\n---\r\n", j))
  }

  /** Every accepted document is of one of these forms, so the three cases leave nothing out. */
  lemma EveryDocumentCloses(s: string) returns (c: Closing, front: string, text: string)
    requires Parse(s).Ok?
    ensures ClosesAt(AfterOpening(s), c, front, text)
  {
    assert CloseIndex(AfterOpening(s)) >= 0 by {
      hide CloseIndex, AfterOpening, Opens, AssignAll, Pairs, Split;
    }
    hide Parse, CloseIndex;
    c, front, text := ClosingOf(AfterOpening(s));
  }

  lemma ClosingOf(rest: string) returns (c: Closing, front: string, text: string)
    requires CloseIndex(rest) >= 0
    ensures ClosesAt(rest, c, front, text)
  {
    hide Index, MatchAt;
    var i := CloseIndex(rest);
    c := if Index(rest, "\n---\n") >= 0 then ByNewline
         else if Index(rest, "\n---\r\n") >= 0 then ByCarriageReturn else ByEnd;
    MatchSplits(rest, "\n---\n");
    MatchSplits(rest, "\n---\r\n");
    front := rest[..i];
    text := if c.ByEnd? then "" else rest[i + |Line(c)|..];
    assert c.ByEnd? ==> rest == rest[..i] + rest[i..];
  }

  lemma MatchSplits(s: string, p: string)
    ensures var i := Index(s, p);
            i >= 0 ==> i + |p| <= |s| && s == s[..i] + p + s[i + |p|..]
  {
    hide Index;
    var i := Index(s, p);
    if i >= 0 {
      assert s[i..i + |p|] == p;
    }
  }

  // ---------------------------------------------------------------- a line

  /** Quotes around a value go; those a value has inside stay. */
  lemma QuotesGo(val: string)
    requires Unquoted(val)
    ensures StripQuotes("\"" + val + "\"") == val
  {
    var q := "\"" + val + "\"";
    assert q[0] == '"' && q[1..] == val + "\"";
    var r := val + "\"";
    if val == "" {
      assert r == "\"" && r[1..] == "";
    } else {
      assert r[0] == val[0] && r[|r| - 1] == '"' && r[..|r| - 1] == val;
    }
  }

  /**
   How a line is read: blanks at its ends and around the colon do not matter, the first colon
   counts, and quotes around the value go.
   */
  lemma LineReads(b: string, key: string, b': string, c: string, val: string, c': string, quoted: bool)
    requires Blank(b) && Blank(b') && Blank(c) && Blank(c')
    requires key != "" && Trimmed(key) && ':' !in key && val != "" && Trimmed(val) && Unquoted(val)
    ensures var v := if quoted then "\"" + val + "\"" else val;
            LinePair(b + (key + b' + ":" + c + v) + c') == Some(Field(key, val))
  {
    hide TrimSpace, LinePair, Trimmed, Unquoted, StripQuotes, Blank;
    QuotesGo(val);
    StripNoop(val);
    ValueTrimmed(val);
    LineWith(b, key, b', c, if quoted then "\"" + val + "\"" else val, c');
  }

  lemma LineWith(b: string, key: string, b': string, c: string, v: string, c': string)
    requires Blank(b) && Blank(b') && Blank(c) && Blank(c')
    requires key != "" && Trimmed(key) && ':' !in key && v != "" && Trimmed(v)
    ensures LinePair(b + (key + b' + ":" + c + v) + c') == Some(Field(key, StripQuotes(v)))
  {
    hide TrimSpace, LinePair, Trimmed, StripQuotes, Blank;
    var core, left := key + b' + ":" + c + v, key + b';
    CoreTrimmed(key, b', c, v);
    BlankNoColon(b');
    TrimBlanks(b, core, c');
    TrimAfter(key, b');
    TrimBefore(c, v);
    RegroupLine(left, c, v);
    LineCut(b + core + c', left, c + v);
  }

  lemma RegroupLine(left: string, c: string, v: string)
    ensures left + ":" + c + v == left + [':'] + (c + v)
  {
  }

  lemma LineCut(raw: string, left: string, right: string)
    requires TrimSpace(raw) == left + [':'] + right && ':' !in left
    ensures LinePair(raw) == Some(Field(TrimSpace(left), StripQuotes(TrimSpace(right))))
  {
    hide TrimSpace, StripQuotes, IndexChar;
    var line := left + [':'] + right;
    IndexCharIs(left, ':', right);
    assert line[..|left|] == left && line[|left| + 1..] == right;
  }

  lemma StripNoop(val: string)
    requires Unquoted(val)
    ensures StripQuotes(val) == val
  {
  }

  lemma BlankNoColon(b: string)
    requires Blank(b)
    ensures ':' !in b
  {
  }

  lemma ValueTrimmed(val: string)
    requires val != "" && Trimmed(val)
    ensures Trimmed("\"" + val + "\"")
  {
    var q := "\"" + val + "\"";
    assert q[0] == '"' && q[|q| - 1] == '"';
  }

  lemma CoreTrimmed(key: string, b: string, c: string, v: string)
    requires key != "" && v != "" && Trimmed(key) && Trimmed(v) && Blank(b) && Blank(c)
    ensures Trimmed(key + b + ":" + c + v) && key + b + ":" + c + v != ""
  {
    var s := key + b + ":" + c + v;
    assert s == (key + b) + [':'] + (c + v);
    hide LeadSpace, TrailSpace, Blank;
    LeadSpaceBefore(key + b, ':', c + v);
    LeadBeforeBlank(key, b);
    TrailSpaceAfter(key + b, ':', c + v);
    TrailAfterBlank(c, v);
  }

  // ---------------------------------------------------------------- several lines for one key

  /** The value of the last pair with this key. */
  function LastValue(pairs: seq<Field>, key: string): Option<string> {
    if pairs == [] then None
    else
      var later := LastValue(pairs[1..], key);
      if later.Some? then later else if pairs[0].key == key then Some(pairs[0].val) else None
  }

  function Or(v: Option<string>, default_: string): string {
    if v.Some? then v.value else default_
  }

  /** The field a canonical key sets. */
  function FieldAt(m: Mail, key: string): string {
    if key == "id" then m.id
    else if key == "kind" then m.kind
    else if key == "target" then m.target
    else if key == "source" then m.source
    else m.idempotencyKey
  }

  /** Of several pairs with one key the last counts, and a field without one stays as it was. */
  lemma {:induction false} LastCounts(m: Mail, pairs: seq<Field>, k: string)
    requires AssignAll(m, pairs).Ok? && k in {"id", "kind", "target", "source", "idempotency_key"}
    ensures FieldAt(AssignAll(m, pairs).value, k) == Or(LastValue(pairs, k), FieldAt(m, k))
    decreases |pairs|
  {
    if pairs != [] {
      AssignField(m, pairs[0], k);
      hide Assign, FieldAt;
      LastCounts(Assign(m, pairs[0].key, pairs[0].val).value, pairs[1..], k);
    }
  }

  lemma AssignField(m: Mail, f: Field, k: string)
    requires Assign(m, f.key, f.val).Ok? && k in {"id", "kind", "target", "source", "idempotency_key"}
    ensures FieldAt(Assign(m, f.key, f.val).value, k) == if f.key == k then f.val else FieldAt(m, k)
  {
    hide KnownKind;
  }

  /** So it is for every other key, and only keys that are given appear. */
  lemma {:induction false} LastCountsOther(m: Mail, pairs: seq<Field>, k: string)
    requires AssignAll(m, pairs).Ok? && !CanonicalKey(k)
    ensures var r, last := AssignAll(m, pairs).value, LastValue(pairs, k);
            && (k in r.metadata <==> k in m.metadata || last.Some?)
            && (k in r.metadata ==> r.metadata[k] == if last.Some? then last.value else m.metadata[k])
    decreases |pairs|
  {
    if pairs != [] {
      var m' := Assign(m, pairs[0].key, pairs[0].val).value;
      AssignOne(m, pairs[0], k);
      hide Assign, CanonicalKey;
      LastCountsOther(m', pairs[1..], k);
    }
  }

  lemma AssignOne(m: Mail, f: Field, k: string)
    requires Assign(m, f.key, f.val).Ok? && !CanonicalKey(k)
    ensures var m' := Assign(m, f.key, f.val).value;
            if f.key == k then k in m'.metadata && m'.metadata[k] == f.val
            else (k in m'.metadata <==> k in m.metadata) && (k in m.metadata ==> m'.metadata[k] == m.metadata[k])
  {
    hide KnownKind;
  }

  /** The fields of an accepted document, by its frontmatter lines; the body is not looked at. */
  lemma ParsedFields(front: string, body: string)
    requires Read(front, body).Ok?
    ensures var m, pairs := Read(front, body).value, Pairs(Split(front, '\n'));
            && m.body == body
            && LastValue(pairs, "kind") == Some(m.kind)
            && m.id == Or(LastValue(pairs, "id"), "") && m.target == Or(LastValue(pairs, "target"), "")
            && m.source == Or(LastValue(pairs, "source"), "")
            && m.idempotencyKey == Or(LastValue(pairs, "idempotency_key"), "")
            && (forall k | !CanonicalKey(k) :: k in m.metadata <==> LastValue(pairs, k).Some?)
            && (forall k | !CanonicalKey(k) && k in m.metadata :: Some(m.metadata[k]) == LastValue(pairs, k))
  {
    hide AssignAll, Pairs, Split, CanonicalKey, LastValue;
    var pairs := Pairs(Split(front, '\n'));
    LastCounts(Empty(), pairs, "id");
    LastCounts(Empty(), pairs, "kind");
    LastCounts(Empty(), pairs, "target");
    LastCounts(Empty(), pairs, "source");
    LastCounts(Empty(), pairs, "idempotency_key");
    var m := Read(front, body).value;
    forall k | !CanonicalKey(k)
      ensures (k in m.metadata <==> LastValue(pairs, k).Some?) &&
              (k in m.metadata ==> Some(m.metadata[k]) == LastValue(pairs, k))
    {
      LastCountsOther(Empty(), pairs, k);
    }
  }

  /** The shortest documents: a kind and a text, or a kind and nothing. */
  lemma ShortDocuments(kind: string, text: string)
    requires KnownKind(kind) && !("\n---" <= text)
    ensures Parse("---\n" + ("kind: " + kind + "\n---\n" + text))
         == Ok(Mail("", kind, "", "", "", LessOneNewline(text), map[]))
    ensures Parse("---\n" + ("kind: " + kind + "\n---")) == Ok(Mail("", kind, "", "", "", "", map[]))
  {
    hide Parse, Read, LessOneNewline, MatchAt, CanonicalKey, PlainKey;
    var front := "kind: " + kind;
    KindsAndKeys(kind);
    hide KnownKind;
    KindLine(kind, LessOneNewline(text));
    KindLine(kind, "");
    KindFront(kind, "\n---\n" + text);
    KindFront(kind, "\n---");
    assert front + "\n---\n" + text == front + ("\n---\n" + text);
    NothingAtEnd(front);
    ClosedByNewline(false, front, text);
    ClosedByEnd(false, front);
  }

  /** No delimiter starts in a line without a newline, and it is no opening line. */
  lemma KindFront(kind: string, tail: string)
    requires '\n' !in kind
    ensures var rest := "kind: " + kind + tail;
            && !("---\r\n" <= rest)
            && forall j: nat | j < |"kind: " + kind| ::
                 !MatchAt(rest, "\n---\n", j) && !MatchAt(rest, "\n---\r\n", j)
  {
    var front := "kind: " + kind;
    var rest := front + tail;
    assert rest[0] == 'k';
    assert '\n' !in front;
    forall j: nat | j < |front| ensures !MatchAt(rest, "\n---\n", j) && !MatchAt(rest, "\n---\r\n", j) {
      assert rest[j] == front[j];
      NotHere(rest, "\n---\n", j);
      NotHere(rest, "\n---\r\n", j);
    }
  }

  lemma NothingAtEnd(front: string)
    ensures forall j: nat | j >= |front| ::
              !MatchAt(front + "\n---", "\n---\n", j) && !MatchAt(front + "\n---", "\n---\r\n", j)
  {
  }

  lemma NotHere(s: string, p: string, j: nat)
    requires j < |s| && p != "" && s[j] != p[0]
    ensures !MatchAt(s, p, j)
  {
    assert j + |p| <= |s| ==> s[j..j + |p|][0] == s[j];
  }

  lemma KindLine(kind: string, body: string)
    requires KnownKind(kind) && '\n' !in kind
    ensures Read("kind: " + kind, body) == Ok(Mail("", kind, "", "", "", body, map[]))
  {
    hide *;
    OneKind(kind);
    KindPair(kind);
    OneLineSplit("kind: " + kind);
    OnePair("kind: " + kind, Field("kind", kind));
    ReadIs("kind: " + kind, body);
  }

  lemma OnePair(line: string, f: Field)
    requires LinePair(line) == Some(f)
    ensures Pairs([line]) == [f]
  {
    hide LinePair;
    assert [line][1..] == [];
  }

  lemma ReadIs(front: string, body: string)
    requires AssignAll(Empty(), Pairs(Split(front, '\n'))).Ok?
    requires AssignAll(Empty(), Pairs(Split(front, '\n'))).value.kind != ""
    ensures Read(front, body) == Ok(AssignAll(Empty(), Pairs(Split(front, '\n'))).value.(body := body))
  {
    hide AssignAll, Pairs, Split;
  }

  lemma OneLineSplit(line: string)
    requires '\n' !in line
    ensures Split(line, '\n') == [line]
  {
  }

  lemma KindPair(kind: string)
    requires KnownKind(kind)
    ensures LinePair("kind: " + kind) == Some(Field("kind", kind))
  {
    hide *;
    KindReadBack(kind);
    KindIsPlain(kind);
    KindText(kind);
    LinePairOf(Field("kind", kind));
  }

  lemma KindIsPlain(kind: string)
    requires KnownKind(kind)
    ensures PlainKey("kind")
  {
    KindsAndKeys(kind);
    assert CanonicalKey("kind");
  }

  lemma KindText(kind: string)
    ensures FieldLine(Field("kind", kind)) == "kind: " + kind
  {
    assert "kind" + ": " == "kind: ";
  }

  lemma OneKind(kind: string)
    requires KnownKind(kind)
    ensures AssignAll(Empty(), [Field("kind", kind)]) == Ok(Mail("", kind, "", "", "", "", map[])) && kind != ""
  {
    assert [Field("kind", kind)][1..] == [];
  }

  // ---------------------------------------------------------------- refusals

  predicate SixKinds(kind: string) {
    kind in {"specification", "report", "design-feedback", "implementation-feedback", "convergence", "ci-result"}
  }

  /** The n-th pair is the first that is not accepted, and this is the error for it. */
  predicate FirstRefused(pairs: seq<Field>, n: nat, e: ParseError) {
    && n < |pairs| && (forall i | 0 <= i < n :: PairAccepted(pairs[i]))
    && match e
       case UnknownKind(k) => pairs[n] == Field("kind", k) && !SixKinds(k)
       case UnsupportedSchema(v) => pairs[n] == Field("dmail-schema-version", v) && v != "1"
       case _ => false
  }

  lemma {:induction false} RefusedPair(m: Mail, pairs: seq<Field>) returns (n: nat)
    ensures AssignAll(m, pairs).Err? ==> FirstRefused(pairs, n, AssignAll(m, pairs).error)
    decreases |pairs|
  {
    n := 0;
    if pairs != [] {
      AssignAccepts(m, pairs[0]);
      if PairAccepted(pairs[0]) {
        hide Assign, PairAccepted;
        var k := RefusedPair(Assign(m, pairs[0].key, pairs[0].val).value, pairs[1..]);
        n := k + 1;
        assert forall i | 0 < i < |pairs| :: pairs[i] == pairs[1..][i - 1];
      }
    }
  }

  /** Why a document is refused: no delimiter, the first bad line, or no kind; an accepted one has a known kind. */
  lemma RefusedBecause(s: string) returns (n: nat)
    ensures var rest := AfterOpening(s);
            var i := CloseIndex(rest);
            match Parse(s)
            case Ok(m) => SixKinds(m.kind)
            case Err(MissingOpening) => !("---\n" <= s) && !("---\r\n" <= s)
            case Err(MissingClosing) =>
              && ("---\n" <= s || "---\r\n" <= s)
              && (forall j: nat :: !MatchAt(rest, "\n---\n", j) && !MatchAt(rest, "\n---\r\n", j))
              && !HasSuffix(rest, "\n---")
            case Err(KindRequired) =>
              i >= 0 && forall f | f in Pairs(Split(rest[..i], '\n')) :: f.key != "kind"
            case Err(e) => i >= 0 && FirstRefused(Pairs(Split(rest[..i], '\n')), n, e)
  {
    n := 0;
    var rest := AfterOpening(s);
    var i := CloseIndex(rest);
    if i < 0 {
      NoClosing(rest);
    } else {
      n := RefusedPair(Empty(), Pairs(Split(rest[..i], '\n')));
      AssignAllAccepts(Empty(), Pairs(Split(rest[..i], '\n')));
    }
    if Parse(s).Ok? {
      ParsedShape(s);
    }
    hide Pairs, AssignAll, CloseIndex, AfterOpening, PairAccepted, FirstRefused, MatchAt, HasSuffix, BodyAfter, Split;
  }

  lemma NoClosing(rest: string)
    requires CloseIndex(rest) < 0
    ensures forall j: nat :: !MatchAt(rest, "\n---\n", j) && !MatchAt(rest, "\n---\r\n", j)
    ensures !HasSuffix(rest, "\n---")
  {
    hide MatchAt;
  }

  // ---------------------------------------------------------------- the printed text

  /** One line per key, in this order. */
  function MetadataText(metadata: map<string, string>, keys: seq<string>): string
    requires forall k | k in keys :: k in metadata
  {
    if keys == [] then ""
    else
      var n := |keys| - 1;
      MetadataText(metadata, keys[..n]) + (keys[n] + ": " + metadata[keys[n]] + "\n")
  }

  function LineIf(key: string, val: string): string {
    if val == "" then "" else key + ": " + val + "\n"
  }

  /** The text of the fields' lines. */
  function TextOf(fields: seq<Field>): string {
    Unlines(Lines(fields))
  }

  lemma TextAppend(a: seq<Field>, b: seq<Field>)
    ensures TextOf(a + b) == TextOf(a) + TextOf(b)
  {
    assert Lines(a + b) == Lines(a) + Lines(b);
    UnlinesAppend(Lines(a), Lines(b));
  }

  lemma TextOfOne(key: string, val: string)
    ensures TextOf([Field(key, val)]) == key + ": " + val + "\n"
    ensures TextOf(Optional(key, val)) == LineIf(key, val)
    ensures TextOf([]) == ""
  {
    var one := [Field(key, val)];
    assert Lines(one) == [FieldLine(one[0])] && Lines([]) == [];
    assert Unlines(Lines(one)) == FieldLine(one[0]) + "\n" + "";
  }

  lemma {:induction false} MetadataTextIs(metadata: map<string, string>, keys: seq<string>)
    requires forall k | k in keys :: k in metadata
    ensures TextOf(MetadataFields(metadata, keys)) == MetadataText(metadata, keys)
    decreases |keys|
  {
    hide TextOf;
    TextOfOne("", "");
    if keys == [] {
      assert MetadataFields(metadata, keys) == [];
    } else {
      var n := |keys| - 1;
      MetadataTextIs(metadata, keys[..n]);
      MetadataFieldsSnoc(metadata, keys, n);
      assert keys[..n + 1] == keys;
      TextAppend(MetadataFields(metadata, keys[..n]), [Field(keys[n], metadata[keys[n]])]);
      TextOfOne(keys[n], metadata[keys[n]]);
    }
  }

  lemma HeaderText(m: Mail)
    ensures TextOf(Header(m))
         == "dmail-schema-version: \"1\"\n" + LineIf("id", m.id) + ("kind: " + m.kind + "\n")
            + LineIf("target", m.target) + LineIf("source", m.source) + LineIf("idempotency_key", m.idempotencyKey)
  {
    hide TextOf, Optional;
    var a, b, c := [Field("dmail-schema-version", "\"1\"")], Optional("id", m.id), [Field("kind", m.kind)];
    var d, e, f := Optional("target", m.target), Optional("source", m.source),
                   Optional("idempotency_key", m.idempotencyKey);
    TextAppend(a, b);
    TextAppend(a + b, c);
    TextAppend(a + b + c, d);
    TextAppend(a + b + c + d, e);
    TextAppend(a + b + c + d + e, f);
    TextOfOne("dmail-schema-version", "\"1\"");
    TextOfOne("id", m.id);
    TextOfOne("kind", m.kind);
    TextOfOne("target", m.target);
    TextOfOne("source", m.source);
    TextOfOne("idempotency_key", m.idempotencyKey);
    assert "dmail-schema-version" + ": " + "\"1\"" + "\n" == "dmail-schema-version: \"1\"\n";
    assert "kind" + ": " + m.kind + "\n" == "kind: " + m.kind + "\n";
  }

  /**
   The printed document: the version, the fields that are given, in a fixed order, the metadata by
   ascending key, each key once, a blank line, and the body with one newline added if it ends in none.
   */
  lemma PrintedText(m: Mail) returns (keys: seq<string>)
    ensures (forall k :: k in keys <==> k in m.metadata) && |keys| == |m.metadata|
    ensures forall i, j | 0 <= i < j < |keys| :: LessEq(keys[i], keys[j]) && keys[i] != keys[j]
    ensures Render(m)
         == "---\n"
            + ("dmail-schema-version: \"1\"\n" + LineIf("id", m.id) + ("kind: " + m.kind + "\n")
               + LineIf("target", m.target) + LineIf("source", m.source) + LineIf("idempotency_key", m.idempotencyKey)
               + MetadataText(m.metadata, keys))
            + "---\n\n"
            + if m.body != "" && m.body[|m.body| - 1] == '\n' then m.body else m.body + "\n"
  {
    hide LessEq, LineIf, SortStrings;
    keys := SortedKeys(m);
    ListsMembers(keys, m.metadata.Keys);
    HeaderText(m);
    MetadataTextIs(m.metadata, keys);
    TextAppend(Header(m), MetadataFields(m.metadata, keys));
    hide Header, Lines, Unlines, MetadataFields, MetadataText;
    assert HasSuffix(m.body, "\n") <==> m.body != "" && m.body[|m.body| - 1] == '\n';
  }
}
