/**
 What the D-Mail printer and parser are to each other: for which messages parsing undoes
 printing, exactly; what every parsed message looks like; and that the printed form is canonical.
 */
module DMailRoundTrip {
  import opened Wrappers
  import opened Text
  import opened Sorting
  import opened DMail

  // ---------------------------------------------------------------- the domain

  /** A value the frontmatter can carry: one line, no outer white space, no outer quotes. */
  predicate CleanValue(v: string) {
    Trimmed(v) && Unquoted(v) && '\n' !in v
  }

  predicate CleanKey(k: string) {
    Trimmed(k) && ':' !in k && '\n' !in k && !CanonicalKey(k)
  }

  predicate SingleLine(m: Mail) {
    && '\n' !in m.id && '\n' !in m.target && '\n' !in m.source && '\n' !in m.idempotencyKey
    && (forall k | k in m.metadata :: '\n' !in m.metadata[k])
  }

  predicate CleanKeys(m: Mail) {
    forall k | k in m.metadata :: CleanKey(k)
  }

  /** The exact domain of the round trip. */
  predicate Clean(m: Mail) {
    && KnownKind(m.kind)
    && CleanValue(m.id) && CleanValue(m.target) && CleanValue(m.source) && CleanValue(m.idempotencyKey)
    && CleanKeys(m)
    && (forall k | k in m.metadata :: CleanValue(m.metadata[k]))
    && !("---" <= m.body)
  }

  /** The message with its body ended by a newline, as the printer writes it. */
  function Canonical(m: Mail): Mail {
    m.(body := WithNewline(m.body))
  }

  // ---------------------------------------------------------------- one line

  /** What the parser reads back where the printer wrote the value v. */
  function ReadBack(v: string): string {
    StripQuotes(TrimSpace(TrimRight(" " + v)))
  }

  lemma TrailSpaceTail(v: string)
    ensures v != "" ==> TrailSpace(" " + v) == TrailSpace(v)
  {
    var w := " " + v;
    assert forall i | 0 <= i < |v| :: w[i + 1] == v[i];
  }

  lemma BlankLead(y: string)
    requires y != "" && y[0] == ' '
    ensures TrimSpace(y) == TrimSpace(y[1..])
  {
    hide TrailSpace, TrimRight;
    assert LeadSpace(y) == 1;
  }

  /** The blank the printer puts after the colon disappears with the other white space. */
  lemma PaddedTrim(v: string)
    ensures var x := TrimSpace(TrimRight(" " + v));
            && |x| <= |v|
            && (|x| == |v| ==> Trimmed(v))
            && (Trimmed(v) ==> x == v)
  {
    hide LeadSpace, TrailSpace, TrimLeft, TrimRight, TrimSpace;
    var w := " " + v;
    var y := TrimRight(w);
    TrailSpaceTail(v);
    assert w[1..] == v;
    if y != "" {
      assert y[0] == ' ';
      BlankLead(y);
      assert y[1..] == v[..|y| - 1];
      if |y| == |w| {
        assert y[1..] == v;
      }
    } else {
      assert |TrimSpace("")| == 0;
    }
  }

  lemma ReadBackFixpoint(v: string)
    ensures ReadBack(v) == v <==> Trimmed(v) && Unquoted(v)
  {
    PaddedTrim(v);
  }

  predicate PlainKey(key: string) {
    Trimmed(key) && ':' !in key
  }

  lemma LinePairOf(f: Field)
    requires PlainKey(f.key)
    ensures LinePair(FieldLine(f)) == Some(Field(f.key, ReadBack(f.val)))
  {
    var rest := " " + f.val;
    assert FieldLine(f) == f.key + [':'] + rest;
    LeadSpaceBefore(f.key, ':', rest);
    TrimRightAfter(f.key, ':', rest);
    var line := f.key + [':'] + TrimRight(rest);
    assert TrimSpace(FieldLine(f)) == line;
    IndexCharIs(f.key, ':', TrimRight(rest));
    assert line[..|f.key|] == f.key;
    assert line[|f.key| + 1..] == TrimRight(rest);
    TrimSpaceNoop(f.key);
  }

  // ---------------------------------------------------------------- all lines

  function ReadFields(fields: seq<Field>): seq<Field> {
    seq(|fields|, i requires 0 <= i < |fields| => Field(fields[i].key, ReadBack(fields[i].val)))
  }

  lemma {:induction false} PairsOfLines(fields: seq<Field>)
    requires forall f | f in fields :: PlainKey(f.key)
    ensures Pairs(Lines(fields)) == ReadFields(fields)
    decreases |fields|
  {
    hide LinePair, FieldLine, ReadBack, PlainKey;
    if fields != [] {
      assert PlainKey(fields[0].key);
      LinePairOf(fields[0]);
      PairsOfLines(fields[1..]);
      assert Lines(fields)[1..] == Lines(fields[1..]);
      assert ReadFields(fields) == [Field(fields[0].key, ReadBack(fields[0].val))] + ReadFields(fields[1..]);
    }
  }

  lemma {:induction false} AssignAllAppend(m: Mail, a: seq<Field>, b: seq<Field>, m': Mail)
    requires AssignAll(m, a) == Ok(m')
    ensures AssignAll(m, a + b) == AssignAll(m', b)
    decreases |a|
  {
    if a == [] {
      assert a + b == b;
    } else {
      assert (a + b)[1..] == a[1..] + b;
      AssignAllAppend(Assign(m, a[0].key, a[0].val).value, a[1..], b, m');
    }
  }

  lemma AssignCanonical(m: Mail, v: string)
    ensures Assign(m, "id", v) == Ok(m.(id := v))
    ensures KnownKind(v) ==> Assign(m, "kind", v) == Ok(m.(kind := v))
    ensures Assign(m, "target", v) == Ok(m.(target := v))
    ensures Assign(m, "source", v) == Ok(m.(source := v))
    ensures Assign(m, "idempotency_key", v) == Ok(m.(idempotencyKey := v))
    ensures v == "1" ==> Assign(m, "dmail-schema-version", v) == Ok(m)
  {
  }

  /** Appending one field, read back as `read`, to fields already applied. */
  lemma AssignNext(m: Mail, done: seq<Field>, so: Mail, key: string, read: string, next: Mail)
    requires AssignAll(m, done) == Ok(so) && Assign(so, key, read) == Ok(next)
    ensures AssignAll(m, done + [Field(key, read)]) == Ok(next)
  {
    hide Assign;
    var f := [Field(key, read)];
    AssignAllAppend(m, done, f, so);
    assert AssignAll(next, f[1..]) == Ok(next);
  }

  lemma AssignVersion(m: Mail)
    ensures AssignAll(m, [Field("dmail-schema-version", "1")]) == Ok(m)
  {
    var f0 := [Field("dmail-schema-version", "1")];
    AssignNext(m, [], m, "dmail-schema-version", "1", m);
    assert [] + f0 == f0;
  }

  function ReadOptional(key: string, val: string): seq<Field> {
    if val == "" then [] else [Field(key, ReadBack(val))]
  }

  lemma AssignNextOptional(m: Mail, done: seq<Field>, so: Mail, key: string, val: string, next: Mail)
    requires AssignAll(m, done) == Ok(so) && Assign(so, key, ReadBack(val)) == Ok(next)
    requires val == "" ==> next == so
    ensures AssignAll(m, done + ReadOptional(key, val)) == Ok(next)
  {
    hide Assign, ReadBack;
    if val == "" {
      assert done + [] == done;
    } else {
      AssignNext(m, done, so, key, ReadBack(val), next);
    }
  }

  lemma KindReadBack(kind: string)
    requires KnownKind(kind)
    ensures ReadBack(kind) == kind
  {
    hide ReadBack;
    ReadBackFixpoint(kind);
  }

  lemma VersionReadBack()
    ensures ReadBack("\"1\"") == "1"
  {
    VersionTrimmed();
    hide LeadSpace, TrailSpace, TrimLeft, TrimRight, TrimSpace, Trimmed, Unquoted;
    PaddedTrim("\"1\"");
    assert "\"1\""[1..] == "1\"";
    assert "1\""[..1] == "1";
    assert StripQuotes("1\"") == StripQuotes("1");
  }

  lemma VersionTrimmed()
    ensures Trimmed("\"1\"")
  {
    hide TrimLeft, TrimRight, TrimSpace;
  }

  lemma EmptyReadBack()
    ensures ReadBack("") == ""
  {
    ReadBackFixpoint("");
  }

  /** The header as read back, with no metadata yet. */
  function HeaderRead(m: Mail): Mail {
    Mail(ReadBack(m.id), m.kind, ReadBack(m.target), ReadBack(m.source), ReadBack(m.idempotencyKey), "", map[])
  }

  lemma AssignHeader(m: Mail)
    requires KnownKind(m.kind)
    ensures AssignAll(Empty(), ReadFields(Header(m))) == Ok(HeaderRead(m))
  {
    hide Assign, AssignAll, ReadBack, KnownKind;
    KindReadBack(m.kind);
    VersionReadBack();
    EmptyReadBack();
    var m0 := Empty();
    var m1 := m0.(id := ReadBack(m.id));
    var m2 := m1.(kind := m.kind);
    var m3 := m2.(target := ReadBack(m.target));
    var m4 := m3.(source := ReadBack(m.source));
    AssignCanonical(m0, "1");
    AssignCanonical(m0, ReadBack(m.id));
    AssignCanonical(m1, m.kind);
    AssignCanonical(m2, ReadBack(m.target));
    AssignCanonical(m3, ReadBack(m.source));
    AssignCanonical(m4, ReadBack(m.idempotencyKey));
    var f0 := [Field("dmail-schema-version", "1")];
    AssignVersion(m0);
    AssignNextOptional(m0, f0, m0, "id", m.id, m1);
    var f1 := f0 + ReadOptional("id", m.id);
    AssignNext(m0, f1, m1, "kind", m.kind, m2);
    var f2 := f1 + [Field("kind", m.kind)];
    AssignNextOptional(m0, f2, m2, "target", m.target, m3);
    var f3 := f2 + ReadOptional("target", m.target);
    AssignNextOptional(m0, f3, m3, "source", m.source, m4);
    var f4 := f3 + ReadOptional("source", m.source);
    AssignNextOptional(m0, f4, m4, "idempotency_key", m.idempotencyKey, HeaderRead(m));
    assert ReadFields(Header(m)) == f4 + ReadOptional("idempotency_key", m.idempotencyKey);
  }

  function FieldMap(fields: seq<Field>): map<string, string> {
    if fields == [] then map[] else map[fields[0].key := fields[0].val] + FieldMap(fields[1..])
  }

  lemma AssignOther(m: Mail, f: Field)
    requires !CanonicalKey(f.key)
    ensures Assign(m, f.key, f.val) == Ok(m.(metadata := m.metadata[f.key := f.val]))
  {
  }

  lemma {:induction false} AssignMetadata(m: Mail, fields: seq<Field>)
    requires forall f | f in fields :: !CanonicalKey(f.key)
    ensures AssignAll(m, fields) == Ok(m.(metadata := m.metadata + FieldMap(fields)))
    decreases |fields|
  {
    hide Assign, CanonicalKey, FieldMap;
    if fields == [] {
      FieldMapNone(m.metadata);
    } else {
      var f := fields[0];
      AssignOther(m, f);
      AssignMetadata(m.(metadata := m.metadata[f.key := f.val]), fields[1..]);
      FieldMapFirst(m.metadata, fields);
    }
  }

  lemma FieldMapNone(metadata: map<string, string>)
    ensures metadata + FieldMap([]) == metadata
  {
  }

  lemma FieldMapFirst(metadata: map<string, string>, fields: seq<Field>)
    requires fields != []
    ensures metadata[fields[0].key := fields[0].val] + FieldMap(fields[1..]) == metadata + FieldMap(fields)
  {
  }

  /** The metadata map as read back. */
  function MetadataRead(metadata: map<string, string>): map<string, string> {
    map k | k in metadata :: ReadBack(metadata[k])
  }

  lemma {:induction false} FieldMapOf(fields: seq<Field>, all: map<string, string>)
    requires forall f | f in fields :: f.key in all && all[f.key] == f.val
    ensures forall k :: k in FieldMap(fields) <==> exists f :: f in fields && f.key == k
    ensures forall k | k in FieldMap(fields) :: k in all && FieldMap(fields)[k] == all[k]
    decreases |fields|
  {
    if fields != [] {
      FieldMapOf(fields[1..], all);
      assert fields == [fields[0]] + fields[1..];
    }
  }

  lemma MetadataFieldMap(metadata: map<string, string>, keys: seq<string>)
    requires forall k :: k in keys <==> k in metadata
    ensures FieldMap(ReadFields(MetadataFields(metadata, keys))) == MetadataRead(metadata)
  {
    hide ReadBack, FieldMap;
    var fields := ReadFields(MetadataFields(metadata, keys));
    var read := MetadataRead(metadata);
    assert forall i | 0 <= i < |fields| :: fields[i] == Field(keys[i], read[keys[i]]);
    FieldMapOf(fields, read);
    forall k | k in read ensures k in FieldMap(fields) {
      var i :| 0 <= i < |keys| && keys[i] == k;
      assert fields[i] in fields && fields[i].key == k;
    }
  }

  // ---------------------------------------------------------------- the delimiters

  /** A line the printer writes: on one line, and never just dashes. */
  predicate FrontmatterLine(line: string) {
    '\n' !in line && ':' in line
  }

  lemma {:induction false} UnlinesIsJoin(lines: seq<string>)
    requires lines != []
    ensures Unlines(lines) == Join(lines, '\n') + "\n"
  {
    if |lines| == 1 {
      assert Unlines(lines[1..]) == "";
    } else {
      UnlinesIsJoin(lines[1..]);
    }
  }

  lemma NotADelimiter(line: string, tail: string)
    requires FrontmatterLine(line)
    ensures !MatchAt(line + tail, "---\n", 0)
  {
    var s := line + tail;
    var c := IndexChar(line, ':');
    assert s[c] == ':';
    if 4 <= |s| {
      var t := s[0..4];
      if c < 3 {
        assert t[c] == ':';
      } else {
        assert |line| > 3 ==> t[3] == line[3];
      }
    }
  }

  lemma NotWithin(first: string, more: string, j: nat)
    requires '\n' !in first && j < |first|
    ensures !MatchAt(first + more, "\n---\n", j)
  {
    var s := first + more;
    assert s[j] == first[j];
    assert j + 5 <= |s| ==> s[j..j + 5][0] == s[j];
  }

  lemma AcrossLines(first: string, rest: string, k: nat)
    ensures MatchAt(first + ['\n'] + rest, "\n---\n", |first|) ==> MatchAt(rest, "---\n", 0)
    ensures MatchAt(first + ['\n'] + rest, "\n---\n", |first| + 1 + k) ==> MatchAt(rest, "\n---\n", k)
  {
    var s := first + ['\n'] + rest;
    var at, next := |first|, |first| + 1 + k;
    assert at + 5 <= |s| ==> s[at..at + 5][1..] == rest[0..4];
    assert next + 5 <= |s| ==> s[next..next + 5] == rest[k..k + 5];
  }

  /** Joined lines are the first one, and after a newline the others. */
  lemma JoinFirst(lines: seq<string>, tail: string)
    requires lines != []
    ensures var s := Join(lines, '\n') + tail;
            s == lines[0] + s[|lines[0]|..]
    ensures |lines| == 1 ==> |Join(lines, '\n')| == |lines[0]|
    ensures |lines| > 1 ==>
      && |Join(lines, '\n')| == |lines[0]| + 1 + |Join(lines[1..], '\n')|
      && Join(lines, '\n') + tail == lines[0] + ['\n'] + (Join(lines[1..], '\n') + tail)
  {
  }

  /** No delimiter starts inside the frontmatter. */
  lemma {:induction false} NoEarlyDelimiter(lines: seq<string>, tail: string, j: nat)
    requires lines != []
    requires forall l | l in lines :: FrontmatterLine(l)
    requires j < |Join(lines, '\n')|
    ensures !MatchAt(Join(lines, '\n') + tail, "\n---\n", j)
    decreases |lines|
  {
    var first := lines[0];
    assert FrontmatterLine(first) && '\n' !in first;
    hide MatchAt, FrontmatterLine, Join;
    var s := Join(lines, '\n') + tail;
    JoinFirst(lines, tail);
    if j < |first| {
      NotWithin(first, s[|first|..], j);
    } else {
      var rest := Join(lines[1..], '\n') + tail;
      if j == |first| {
        AcrossLines(first, rest, 0);
        JoinFirst(lines[1..], tail);
        NotADelimiter(lines[1], rest[|lines[1]|..]);
      } else {
        NoEarlyDelimiter(lines[1..], tail, j - |first| - 1);
        AcrossLines(first, rest, j - |first| - 1);
      }
    }
  }

  lemma ClosingFound(lines: seq<string>, tail: string)
    requires lines != []
    requires forall l | l in lines :: FrontmatterLine(l)
    ensures var rest := Unlines(lines) + "---\n" + tail;
            && CloseIndex(rest) == |Join(lines, '\n')|
            && Split(rest[..CloseIndex(rest)], '\n') == lines
            && rest[CloseIndex(rest)..] == "\n---\n" + tail
  {
    UnlinesIsJoin(lines);
    var front := Join(lines, '\n');
    var rest := Unlines(lines) + "---\n" + tail;
    assert rest == front + ("\n---\n" + tail);
    assert rest[..|front|] == front && rest[|front|..] == "\n---\n" + tail;
    assert rest[|front|..|front| + 5] == "\n---\n";
    forall j: nat | j < |front| ensures !MatchAt(rest, "\n---\n", j) {
      NoEarlyDelimiter(lines, "\n---\n" + tail, j);
    }
    IndexIs(rest, "\n---\n", |front|);
    SplitJoin(lines, '\n');
  }

  // ---------------------------------------------------------------- the body

  lemma DashPrefix(s: string)
    ensures "---" <= s <==> 3 <= |s| && s[0] == '-' && s[1] == '-' && s[2] == '-'
    ensures "\n---" <= "\n" + s <==> "---" <= s
  {
    var t := "\n" + s;
    if 3 <= |s| {
      assert s[..3] == [s[0], s[1], s[2]];
      assert t[..4] == ['\n', s[0], s[1], s[2]];
      assert "\n---" <= t <==> t[..4] == "\n---";
    }
  }

  lemma DashedBody(text: string)
    ensures var rest := TrimPrefix(TrimPrefix(TrimPrefix("\n" + text, "\n---\r\n"), "\n---"), "\n");
            if "---" <= text then |rest| < |text| else rest == text
  {
    var t := "\n" + text;
    assert t[1..] == text;
    DashPrefix(text);
    if "\n---\r\n" <= t {
      assert t[..4] == t[..6][..4] == "\n---";
    }
  }

  /** The body survives the four trims exactly when it does not start with dashes. */
  lemma BodyOfRendered(body: string)
    ensures BodyAfter("\n---\n" + ("\n" + WithNewline(body))) == WithNewline(body) <==> !("---" <= body)
  {
    var text := WithNewline(body);
    var t1 := "\n" + text;
    assert ("\n---\n" + t1)[5..] == t1;
    DashPrefix(body);
    DashPrefix(text);
    assert forall i | 0 <= i < |body| :: text[i] == body[i];
    assert |body| < |text| ==> text[|body|] == '\n';
    DashedBody(text);
  }

  // ---------------------------------------------------------------- the round trip

  predicate OneLine(f: Field) {
    '\n' !in f.key && '\n' !in f.val
  }

  lemma OneLineField(f: Field)
    requires OneLine(f)
    ensures FrontmatterLine(FieldLine(f))
  {
    assert FieldLine(f)[|f.key|] == ':';
  }

  /** Lower-case letters and dashes: the alphabet of kinds and canonical keys. */
  predicate Wordy(s: string) {
    forall i | 0 <= i < |s| :: 'a' <= s[i] <= 'z' || s[i] == '-' || s[i] == '_'
  }

  lemma WordyIsPlain(s: string)
    requires Wordy(s)
    ensures PlainKey(s) && '\n' !in s
  {
  }

  lemma KindsAreWordy()
    ensures Wordy("specification") && Wordy("report") && Wordy("design-feedback")
    ensures Wordy("implementation-feedback") && Wordy("convergence") && Wordy("ci-result")
  {
  }

  lemma KeysAreWordy()
    ensures Wordy("dmail-schema-version") && Wordy("id") && Wordy("kind")
    ensures Wordy("target") && Wordy("source") && Wordy("idempotency_key")
  {
  }

  lemma KindsAndKeys(kind: string)
    requires KnownKind(kind)
    ensures '\n' !in kind
    ensures forall key | CanonicalKey(key) :: PlainKey(key) && '\n' !in key
  {
    hide PlainKey, Wordy;
    KindsAreWordy();
    KeysAreWordy();
    WordyIsPlain(kind);
    forall key | CanonicalKey(key) ensures PlainKey(key) && '\n' !in key {
      WordyIsPlain(key);
    }
  }

  lemma HeaderOneLine(m: Mail)
    requires KnownKind(m.kind) && SingleLine(m)
    ensures forall f | f in Header(m) :: OneLine(f) && PlainKey(f.key)
  {
    KindsAndKeys(m.kind);
    forall f | f in Header(m) ensures OneLine(f) && PlainKey(f.key) {
      assert CanonicalKey(f.key);
      assert f.val in {"\"1\"", m.id, m.kind, m.target, m.source, m.idempotencyKey};
    }
  }

  /** A message whose fields stay on their own lines. */
  predicate Legible(m: Mail) {
    KnownKind(m.kind) && SingleLine(m) && CleanKeys(m)
  }

  lemma MetadataOneLine(m: Mail, keys: seq<string>)
    requires SingleLine(m) && CleanKeys(m)
    requires forall k | k in keys :: k in m.metadata
    ensures forall f | f in MetadataFields(m.metadata, keys) :: OneLine(f) && PlainKey(f.key) && !CanonicalKey(f.key)
  {
    forall i | 0 <= i < |keys| ensures OneLine(Field(keys[i], m.metadata[keys[i]])) && PlainKey(keys[i])
        && !CanonicalKey(keys[i]) {
      assert CleanKey(keys[i]);
    }
  }

  lemma FieldsAreLines(fields: seq<Field>)
    requires forall f | f in fields :: OneLine(f)
    ensures forall l | l in Lines(fields) :: FrontmatterLine(l)
  {
    forall i | 0 <= i < |fields| ensures FrontmatterLine(Lines(fields)[i]) {
      OneLineField(fields[i]);
    }
  }

  lemma OpeningOf(rest: string)
    requires rest != "" && rest[0] == 'd'
    ensures Opens("---\n" + rest) && AfterOpening("---\n" + rest) == rest
  {
    assert ("---\n" + rest)[4..] == rest;
  }

  /** Where the parser cuts a printed document. */
  lemma RenderedCut(m: Mail, lines: seq<string>, tail: string)
    requires Legible(m)
    requires lines == Lines(Header(m) + MetadataFields(m.metadata, SortedKeys(m)))
    requires tail == "\n" + WithNewline(m.body)
    ensures Opens(Render(m)) && CloseIndex(AfterOpening(Render(m))) >= 0
    ensures var rest := AfterOpening(Render(m));
            Split(rest[..CloseIndex(rest)], '\n') == lines && rest[CloseIndex(rest)..] == "\n---\n" + tail
  {
    hide SortedKeys, MetadataFields, Header, Lines, Unlines, WithNewline, Opens, AfterOpening, CloseIndex, Split,
        Legible;
    var keys := SortedKeys(m);
    var rest := Unlines(lines) + "---\n" + tail;
    assert Render(m) == "---\n" + rest;
    FirstLine(m, MetadataFields(m.metadata, keys));
    OpeningOf(rest);
    RenderedLines(m, keys);
    ClosingFound(lines, tail);
  }

  lemma RenderedLines(m: Mail, keys: seq<string>)
    requires Legible(m) && forall k | k in keys :: k in m.metadata
    ensures forall l | l in Lines(Header(m) + MetadataFields(m.metadata, keys)) :: FrontmatterLine(l)
  {
    hide Header, MetadataFields, Lines, FrontmatterLine, KnownKind, SingleLine, CleanKeys;
    HeaderOneLine(m);
    MetadataOneLine(m, keys);
    FieldsAreLines(Header(m) + MetadataFields(m.metadata, keys));
  }

  lemma FirstLine(m: Mail, fields: seq<Field>)
    ensures var lines := Lines(Header(m) + fields);
            lines != [] && Unlines(lines) != "" && Unlines(lines)[0] == 'd'
  {
    var version := Field("dmail-schema-version", "\"1\"");
    assert (Header(m) + fields)[0] == version;
    assert Lines(Header(m) + fields)[0] == FieldLine(version);
    assert FieldLine(version)[0] == 'd';
  }

  /** The document of any legible message parses, and to what. */
  lemma ParseRendered(m: Mail)
    requires Legible(m)
    ensures Parse(Render(m)) == Ok(HeaderRead(m).(
              metadata := MetadataRead(m.metadata),
              body := BodyAfter("\n---\n" + ("\n" + WithNewline(m.body)))))
  {
    hide SortedKeys, Header, MetadataFields, Lines, Pairs, AssignAll, MetadataRead, BodyAfter, WithNewline, ReadBack,
         Render, SingleLine, CleanKeys, Opens, AfterOpening, CloseIndex, Split;
    var keys := SortedKeys(m);
    var lines := Lines(Header(m) + MetadataFields(m.metadata, keys));
    RenderedCut(m, lines, "\n" + WithNewline(m.body));
    RenderedFields(m, keys);
  }

  lemma RenderedFields(m: Mail, keys: seq<string>)
    requires Legible(m) && forall k :: k in keys <==> k in m.metadata
    ensures AssignAll(Empty(), Pairs(Lines(Header(m) + MetadataFields(m.metadata, keys))))
         == Ok(HeaderRead(m).(metadata := MetadataRead(m.metadata)))
  {
    hide Header, MetadataFields, Pairs, AssignAll, MetadataRead, KnownKind, SingleLine, CleanKeys, PlainKey, ReadBack,
         CanonicalKey, OneLine, FieldMap;
    var header, metadata := Header(m), MetadataFields(m.metadata, keys);
    HeaderOneLine(m);
    MetadataOneLine(m, keys);
    PairsOfLines(header + metadata);
    assert ReadFields(header + metadata) == ReadFields(header) + ReadFields(metadata);
    AssignHeader(m);
    AssignAllAppend(Empty(), ReadFields(header), ReadFields(metadata), HeaderRead(m));
    AssignMetadata(HeaderRead(m), ReadFields(metadata));
    MetadataFieldMap(m.metadata, keys);
    assert map[] + MetadataRead(m.metadata) == MetadataRead(m.metadata);
  }

  // What every parsed message looks like, whatever the input.

  predicate FieldsWellFormed(m: Mail) {
    && (m.kind == "" || KnownKind(m.kind))
    && SingleLine(m) && CleanKeys(m)
  }

  predicate PairWellFormed(f: Field) {
    PlainKey(f.key) && OneLine(f)
  }

  lemma LinePairShape(raw: string)
    requires '\n' !in raw && LinePair(raw).Some?
    ensures PairWellFormed(LinePair(raw).value)
  {
    TrimSpaceAddsNothing(raw, '\n');
    var line := TrimSpace(raw);
    var colon := IndexChar(line, ':');
    TrimSpaceAddsNothing(line[..colon], ':');
    TrimSpaceAddsNothing(line[..colon], '\n');
    TrimSpaceAddsNothing(line[colon + 1..], '\n');
    StripQuotesAddsNothing(TrimSpace(line[colon + 1..]), '\n');
  }

  lemma {:induction false} PairsShape(lines: seq<string>)
    requires forall l | l in lines :: '\n' !in l
    ensures forall f | f in Pairs(lines) :: PairWellFormed(f)
  {
    hide LinePair, PairWellFormed;
    if lines != [] {
      assert '\n' !in lines[0];
      if LinePair(lines[0]).Some? {
        LinePairShape(lines[0]);
      }
      PairsShape(lines[1..]);
    }
  }

  lemma AssignKeepsShape(m: Mail, f: Field)
    requires FieldsWellFormed(m) && PairWellFormed(f) && Assign(m, f.key, f.val).Ok?
    ensures FieldsWellFormed(Assign(m, f.key, f.val).value)
  {
  }

  lemma {:induction false} AssignAllShape(m: Mail, pairs: seq<Field>)
    requires FieldsWellFormed(m) && AssignAll(m, pairs).Ok?
    requires forall f | f in pairs :: PairWellFormed(f)
    ensures FieldsWellFormed(AssignAll(m, pairs).value)
    decreases |pairs|
  {
    hide Assign, FieldsWellFormed, PairWellFormed;
    if pairs != [] {
      AssignKeepsShape(m, pairs[0]);
      AssignAllShape(Assign(m, pairs[0].key, pairs[0].val).value, pairs[1..]);
    }
  }

  /** Every accepted input, however malformed otherwise, yields one of six kinds and clean keys. */
  lemma ParsedShape(s: string)
    requires Parse(s).Ok?
    ensures Legible(Parse(s).value)
  {
    hide Pairs, AssignAll, CloseIndex, BodyAfter, AfterOpening, Opens, KnownKind, PairWellFormed;
    var rest := AfterOpening(s);
    var lines := Split(rest[..CloseIndex(rest)], '\n');
    PairsShape(lines);
    AssignAllShape(Empty(), Pairs(lines));
  }

  // Which inputs are accepted.

  predicate PairAccepted(f: Field) {
    (f.key == "kind" ==> KnownKind(f.val)) && (f.key == "dmail-schema-version" ==> f.val == "1")
  }

  lemma AssignAccepts(m: Mail, f: Field)
    ensures Assign(m, f.key, f.val).Ok? <==> PairAccepted(f)
    ensures PairAccepted(f) ==> Assign(m, f.key, f.val).value.kind == if f.key == "kind" then f.val else m.kind
  {
  }

  lemma {:induction false} AssignAllAccepts(m: Mail, pairs: seq<Field>)
    ensures AssignAll(m, pairs).Ok? <==> forall f | f in pairs :: PairAccepted(f)
    ensures AssignAll(m, pairs).Ok? && m.kind != "" ==> AssignAll(m, pairs).value.kind != ""
    ensures AssignAll(m, pairs).Ok? && m.kind == "" ==>
              (AssignAll(m, pairs).value.kind != "" <==> exists f :: f in pairs && f.key == "kind")
    decreases |pairs|
  {
    if pairs != [] {
      hide Assign, KnownKind;
      var f := pairs[0];
      assert pairs == [f] + pairs[1..];
      AssignAccepts(m, f);
      if PairAccepted(f) {
        var m' := Assign(m, f.key, f.val).value;
        AssignAllAccepts(m', pairs[1..]);
        KindNotEmpty(f);
      }
    }
  }

  lemma KindNotEmpty(f: Field)
    requires PairAccepted(f)
    ensures f.key == "kind" ==> f.val != ""
  {
  }

  /**
   The parser accepts exactly the inputs that open and close their frontmatter, name a kind,
   and hold only known kinds and schema version 1, on every line that gives one.
   */
  lemma AcceptedExactly(s: string)
    ensures Parse(s).Ok? <==>
      && Opens(s) && CloseIndex(AfterOpening(s)) >= 0
      && var rest := AfterOpening(s);
         var pairs := Pairs(Split(rest[..CloseIndex(rest)], '\n'));
         && (forall f | f in pairs :: PairAccepted(f))
         && (exists f :: f in pairs && f.key == "kind")
  {
    hide Pairs, AssignAll, CloseIndex, BodyAfter, AfterOpening, Opens, PairAccepted;
    var rest := AfterOpening(s);
    if CloseIndex(rest) >= 0 {
      AssignAllAccepts(Empty(), Pairs(Split(rest[..CloseIndex(rest)], '\n')));
    }
  }

  /**
   Parsing the printed document gives the message back, its body newline-terminated, exactly
   for clean messages: a known kind, single-line trimmed unquoted values, keys without ':' that
   are not canonical, and a body that does not start with `---`.
   */
  lemma RoundTripExactly(m: Mail)
    ensures Parse(Render(m)) == Ok(Canonical(m)) <==> Clean(m)
  {
    if Parse(Render(m)) == Ok(Canonical(m)) {
      ParsedShape(Render(m));
      assert Legible(m);
    }
    if Legible(m) {
      LegibleRoundTrip(m);
    }
  }

  lemma MetadataReadFixpoint(metadata: map<string, string>)
    ensures MetadataRead(metadata) == metadata
       <==> forall k | k in metadata :: Trimmed(metadata[k]) && Unquoted(metadata[k])
  {
    hide ReadBack, Trimmed, Unquoted;
    var read := MetadataRead(metadata);
    forall k | k in metadata
      ensures read[k] == metadata[k] <==> Trimmed(metadata[k]) && Unquoted(metadata[k])
    {
      ReadBackFixpoint(metadata[k]);
    }
    assert (forall k | k in metadata :: read[k] == metadata[k]) <==> read == metadata;
  }

  lemma LegibleRoundTrip(m: Mail)
    requires Legible(m)
    ensures Parse(Render(m)) == Ok(Canonical(m)) <==> Clean(m)
  {
    hide Parse, Render, ReadBack, BodyAfter, WithNewline, MetadataRead, Trimmed, Unquoted, KnownKind, CanonicalKey;
    ParseRendered(m);
    BodyOfRendered(m.body);
    ReadBackFixpoint(m.id);
    ReadBackFixpoint(m.target);
    ReadBackFixpoint(m.source);
    ReadBackFixpoint(m.idempotencyKey);
    MetadataReadFixpoint(m.metadata);
  }

  /** The condition on the body is needed: this message is otherwise clean and does not survive. */
  lemma DashesAreLost()
    ensures var m := Mail("", "report", "", "", "", "---\nrule\n", map[]);
            && Clean(m.(body := "rule\n"))
            && Parse(Render(m)) == Ok(m.(body := "rule\n"))
  {
    hide Parse, Render, BodyAfter, ReadBack;
    var m := Mail("", "report", "", "", "", "---\nrule\n", map[]);
    EmptyReadBack();
    DashesDropped();
    assert !("---" <= "rule\n") by { assert "rule\n"[0] != "---"[0]; }
    ParseRendered(m);
    assert MetadataRead(map[]) == map[];
  }

  lemma DashesDropped()
    ensures BodyAfter("\n---\n" + ("\n" + WithNewline("---\nrule\n"))) == "rule\n"
  {
    var t := "\n" + "---\nrule\n";
    assert ("\n---\n" + t)[5..] == t;
    assert t[4] == '\n';
    assert !("\n---\r\n" <= t);
    assert "\n---" <= t && t[4..] == "\nrule\n";
    assert "\nrule\n"[1..] == "rule\n";
  }

  // ---------------------------------------------------------------- the canonical form

  /** The printed document does not depend on the order a map yields its keys in. */
  lemma RenderIgnoresOrder(m: Mail, order: seq<string>)
    requires Lists(order, m.metadata.Keys)
    ensures forall k | k in SortStrings(order) :: k in m.metadata
    ensures Document(m, SortStrings(order)) == Render(m)
  {
    SortedUnique(SortStrings(order), SortedKeys(m));
  }

  lemma RenderCanonical(m: Mail)
    ensures Render(Canonical(m)) == Render(m)
  {
    assert WithNewline(WithNewline(m.body)) == WithNewline(m.body);
    assert Header(Canonical(m)) == Header(m);
  }

  /** Printing what was parsed from a print gives the same bytes. */
  lemma PrintParsePrint(m: Mail)
    requires Clean(m)
    ensures Parse(Render(m)).Ok? && Render(Parse(Render(m)).value) == Render(m)
  {
    RoundTripExactly(m);
    RenderCanonical(m);
  }

  /** Two clean messages print alike exactly when they differ at most in the final newline. */
  lemma RenderInjective(m: Mail, m': Mail)
    requires Clean(m) && Clean(m')
    ensures Render(m) == Render(m') <==> Canonical(m) == Canonical(m')
  {
    RoundTripExactly(m);
    RoundTripExactly(m');
    RenderCanonical(m);
    RenderCanonical(m');
  }
}
