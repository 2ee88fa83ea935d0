/**
 The D-Mail document format (internal/core/domain/dmail.go): the printer, the parser, and the
 value they exchange. `Render` and `Parse` say what the two methods compute; what they mean to
 each other is proved in DMailRoundTrip.
 */
module DMail {
  import opened Wrappers
  import opened Text
  import opened Sorting

  /** A message. The kind stays a string, as in the source: a value may carry an unknown one. */
  datatype Mail = Mail(
    id: string,
    kind: string,
    target: string,
    source: string,
    idempotencyKey: string,
    body: string,
    metadata: map<string, string>)

  datatype ParseError =
    | MissingOpening
    | MissingClosing
    | UnknownKind(kind: string)
    | UnsupportedSchema(version: string)
    | KindRequired

  predicate KnownKind(kind: string) {
    kind in {"specification", "report", "design-feedback", "implementation-feedback",
             "convergence", "ci-result"}
  }

  predicate CanonicalKey(key: string) {
    key in {"dmail-schema-version", "id", "kind", "target", "source", "idempotency_key"}
  }

  // ---------------------------------------------------------------- printing

  datatype Field = Field(key: string, val: string)

  function FieldLine(f: Field): string {
    f.key + ": " + f.val
  }

  function Optional(key: string, val: string): seq<Field> {
    if val == "" then [] else [Field(key, val)]
  }

  /** The canonical frontmatter fields in their fixed order; empty ones are left out. */
  function Header(m: Mail): seq<Field> {
    [Field("dmail-schema-version", "\"1\"")] + Optional("id", m.id) + [Field("kind", m.kind)]
    + Optional("target", m.target) + Optional("source", m.source)
    + Optional("idempotency_key", m.idempotencyKey)
  }

  function MetadataFields(metadata: map<string, string>, keys: seq<string>): seq<Field>
    requires forall k | k in keys :: k in metadata
  {
    seq(|keys|, i requires 0 <= i < |keys| => Field(keys[i], metadata[keys[i]]))
  }

  function Lines(fields: seq<Field>): seq<string> {
    seq(|fields|, i requires 0 <= i < |fields| => FieldLine(fields[i]))
  }

  /** Each line followed by a newline. */
  function Unlines(lines: seq<string>): string {
    if lines == [] then "" else lines[0] + "\n" + Unlines(lines[1..])
  }

  function WithNewline(body: string): string {
    if HasSuffix(body, "\n") then body else body + "\n"
  }

  /** The document whose frontmatter lists the metadata in the order of `keys`. */
  function Document(m: Mail, keys: seq<string>): string
    requires forall k | k in keys :: k in m.metadata
  {
    "---\n" + Unlines(Lines(Header(m) + MetadataFields(m.metadata, keys))) + "---\n\n" + WithNewline(m.body)
  }

  ghost function SomeOrder(keys: set<string>): (s: seq<string>)
    ensures Lists(s, keys)
  {
    if keys == {} then []
    else
      var k :| k in keys;
      assert keys == {k} + (keys - {k});
      [k] + SomeOrder(keys - {k})
  }

  ghost function SortedKeys(m: Mail): (keys: seq<string>)
    ensures Lists(keys, m.metadata.Keys)
    ensures forall k :: k in keys <==> k in m.metadata
    ensures Sorted(keys)
  {
    var keys := SortStrings(SomeOrder(m.metadata.Keys));
    ListsMembers(keys, m.metadata.Keys);
    keys
  }

  /** What RenderMarkdown computes. */
  ghost function Render(m: Mail): string {
    Document(m, SortedKeys(m))
  }

  lemma {:induction false} UnlinesAppend(a: seq<string>, b: seq<string>)
    ensures Unlines(a + b) == Unlines(a) + Unlines(b)
  {
    if a == [] {
      assert a + b == b;
    } else {
      assert (a + b)[1..] == a[1..] + b;
      UnlinesAppend(a[1..], b);
      assert a[0] + "\n" + (Unlines(a[1..]) + Unlines(b)) == a[0] + "\n" + Unlines(a[1..]) + Unlines(b);
    }
  }

  lemma UnlinesSnoc(fields: seq<Field>, f: Field)
    ensures Unlines(Lines(fields + [f])) == Unlines(Lines(fields)) + f.key + ": " + f.val + "\n"
  {
    assert Lines(fields + [f]) == Lines(fields) + [FieldLine(f)];
    UnlinesAppend(Lines(fields), [FieldLine(f)]);
    assert Unlines([FieldLine(f)]) == FieldLine(f) + "\n" + "";
    assert Unlines(Lines(fields)) + (f.key + ": " + f.val + "\n")
        == Unlines(Lines(fields)) + f.key + ": " + f.val + "\n";
  }

  /** One conditional write of the printer: `key: val` unless the value is empty. */
  method WriteOptional(b: string, key: string, val: string, ghost before: seq<Field>) returns (b': string)
    requires b == "---\n" + Unlines(Lines(before))
    ensures b' == "---\n" + Unlines(Lines(before + Optional(key, val)))
  {
    b' := b;
    if val != "" {
      b' := b + key + ": " + val + "\n";
      UnlinesSnoc(before, Field(key, val));
      assert b' == "---\n" + (Unlines(Lines(before)) + key + ": " + val + "\n");
    } else {
      assert before + [] == before;
    }
  }

  method WriteHeader(m: Mail) returns (b: string)
    ensures b == "---\n" + Unlines(Lines(Header(m)))
  {
    b := "---\n" + "dmail-schema-version: \"1\"\n";
    ghost var f0 := [Field("dmail-schema-version", "\"1\"")];
    assert Lines(f0) == [FieldLine(f0[0])];
    assert Unlines(Lines(f0)) == FieldLine(f0[0]) + "\n" + "";
    b := WriteOptional(b, "id", m.id, f0);
    ghost var f1 := f0 + Optional("id", m.id);
    UnlinesSnoc(f1, Field("kind", m.kind));
    b := b + "kind" + ": " + m.kind + "\n";
    ghost var f2 := f1 + [Field("kind", m.kind)];
    assert b == "---\n" + Unlines(Lines(f2));
    b := WriteOptional(b, "target", m.target, f2);
    ghost var f3 := f2 + Optional("target", m.target);
    b := WriteOptional(b, "source", m.source, f3);
    ghost var f4 := f3 + Optional("source", m.source);
    b := WriteOptional(b, "idempotency_key", m.idempotencyKey, f4);
  }

  /** The keys of a Go map in whatever order ranging yields them, then sorted. */
  method CollectKeys(m: Mail) returns (keys: seq<string>)
    ensures keys == SortedKeys(m)
  {
    keys := [];
    var left := m.metadata.Keys;
    while left != {}
      invariant multiset(keys) + multiset(left) == multiset(m.metadata.Keys)
      decreases left
    {
      var k :| k in left;
      keys, left := keys + [k], left - {k};
    }
    keys := SortStrings(keys);
    SortedUnique(keys, SortedKeys(m));
  }

  method WriteMetadata(metadata: map<string, string>, keys: seq<string>) returns (b: string)
    requires forall k | k in keys :: k in metadata
    ensures b == Unlines(Lines(MetadataFields(metadata, keys)))
  {
    b := "";
    for i := 0 to |keys|
      invariant b == Unlines(Lines(MetadataFields(metadata, keys[..i])))
    {
      UnlinesSnoc(MetadataFields(metadata, keys[..i]), Field(keys[i], metadata[keys[i]]));
      MetadataFieldsSnoc(metadata, keys, i);
      b := b + keys[i] + ": " + metadata[keys[i]] + "\n";
    }
    assert keys[..|keys|] == keys;
  }

  /**
   The printer. The key set is read in an arbitrary order and sorted; the result is
   `Render(m)` whichever order that was.
   */
  method RenderMarkdown(m: Mail) returns (doc: string)
    ensures doc == Render(m)
  {
    var header := WriteHeader(m);
    var keys := CollectKeys(m);
    var metadata := WriteMetadata(m.metadata, keys);
    var body := m.body;
    if !HasSuffix(m.body, "\n") {
      body := body + "\n";
    }
    doc := header + metadata + "---\n\n" + body;
    DocumentParts(m, keys);
  }

  lemma DocumentParts(m: Mail, keys: seq<string>)
    requires forall k | k in keys :: k in m.metadata
    ensures Document(m, keys)
         == "---\n" + Unlines(Lines(Header(m))) + Unlines(Lines(MetadataFields(m.metadata, keys)))
            + "---\n\n" + WithNewline(m.body)
  {
    var h, d := Header(m), MetadataFields(m.metadata, keys);
    assert Lines(h + d) == Lines(h) + Lines(d);
    UnlinesAppend(Lines(h), Lines(d));
    assert "---\n" + (Unlines(Lines(h)) + Unlines(Lines(d))) == "---\n" + Unlines(Lines(h)) + Unlines(Lines(d));
  }

  lemma MetadataFieldsSnoc(metadata: map<string, string>, keys: seq<string>, i: nat)
    requires i < |keys| && forall k | k in keys :: k in metadata
    ensures MetadataFields(metadata, keys[..i + 1])
         == MetadataFields(metadata, keys[..i]) + [Field(keys[i], metadata[keys[i]])]
  {
  }

  // ---------------------------------------------------------------- parsing

  function Empty(): Mail {
    Mail("", "", "", "", "", "", map[])
  }

  /** What one recognised `key: val` pair does to the mail built so far. */
  function Assign(m: Mail, key: string, val: string): Result<Mail, ParseError> {
    if key == "id" then Ok(m.(id := val))
    else if key == "kind" then (if KnownKind(val) then Ok(m.(kind := val)) else Err(UnknownKind(val)))
    else if key == "target" then Ok(m.(target := val))
    else if key == "source" then Ok(m.(source := val))
    else if key == "idempotency_key" then Ok(m.(idempotencyKey := val))
    else if key == "dmail-schema-version" then (if val == "1" then Ok(m) else Err(UnsupportedSchema(val)))
    else Ok(m.(metadata := m.metadata[key := val]))
  }

  /** The pair a frontmatter line holds; a line without a colon holds none. */
  function LinePair(raw: string): Option<Field> {
    var line := TrimSpace(raw);
    var colon := IndexChar(line, ':');
    if colon < 0 then None
    else Some(Field(TrimSpace(line[..colon]), StripQuotes(TrimSpace(line[colon + 1..]))))
  }

  /** The pairs the frontmatter lines hold, in order. */
  function Pairs(lines: seq<string>): seq<Field> {
    if lines == [] then []
    else (match LinePair(lines[0]) case None => [] case Some(f) => [f]) + Pairs(lines[1..])
  }

  /** Every pair applied in turn; the first refusal stops the parse. */
  function AssignAll(m: Mail, pairs: seq<Field>): Result<Mail, ParseError>
    decreases |pairs|
  {
    if pairs == [] then Ok(m)
    else
      var r := Assign(m, pairs[0].key, pairs[0].val);
      if r.Err? then r else AssignAll(r.value, pairs[1..])
  }

  function AfterOpening(s: string): string {
    TrimPrefix(TrimPrefix(s, "---\n"), "---\r\n")
  }

  /** Where the closing delimiter starts: the three forms the parser tries, in turn. */
  function CloseIndex(rest: string): (i: int)
    ensures -1 <= i <= |rest|
  {
    if Index(rest, "\n---\n") >= 0 then Index(rest, "\n---\n")
    else if Index(rest, "\n---\r\n") >= 0 then Index(rest, "\n---\r\n")
    else if HasSuffix(rest, "\n---") then |rest| - 4
    else -1
  }

  /** The four prefixes the parser drops in a row from the closing delimiter on. */
  function BodyAfter(closing: string): string {
    TrimPrefix(TrimPrefix(TrimPrefix(TrimPrefix(closing, "\n---\n"), "\n---\r\n"), "\n---"), "\n")
  }

  predicate Opens(s: string) {
    "---\n" <= s || "---\r\n" <= s
  }

  /** What ParseDMail computes. */
  function Parse(s: string): Result<Mail, ParseError> {
    if !Opens(s) then Err(MissingOpening)
    else
      var rest := AfterOpening(s);
      var close := CloseIndex(rest);
      if close < 0 then Err(MissingClosing)
      else
        var r := AssignAll(Empty(), Pairs(Split(rest[..close], '\n')));
        if r.Err? then r
        else if r.value.kind == "" then Err(KindRequired)
        else Ok(r.value.(body := BodyAfter(rest[close..])))
  }

  /** The body of the parser's loop once a line has been cut at its colon. */
  method AssignPair(m: Mail, key: string, val: string) returns (r: Result<Mail, ParseError>)
    ensures r == Assign(m, key, val)
  {
    if CanonicalKey(key) {
      if key == "id" { return Ok(m.(id := val)); }
      if key == "kind" {
        if !KnownKind(val) { return Err(UnknownKind(val)); }
        return Ok(m.(kind := val));
      }
      if key == "target" { return Ok(m.(target := val)); }
      if key == "source" { return Ok(m.(source := val)); }
      if key == "idempotency_key" { return Ok(m.(idempotencyKey := val)); }
      if val != "1" { return Err(UnsupportedSchema(val)); }
      return Ok(m);
    }
    return Ok(m.(metadata := m.metadata[key := val]));
  }

  /** The parser's loop over the frontmatter lines. */
  method ReadFrontmatter(lines: seq<string>) returns (r: Result<Mail, ParseError>)
    ensures r == AssignAll(Empty(), Pairs(lines))
  {
    hide Assign, IndexChar, TrimSpace, StripQuotes;
    var m := Empty();
    var i := 0;
    while i < |lines|
      invariant 0 <= i <= |lines|
      invariant AssignAll(Empty(), Pairs(lines)) == AssignAll(m, Pairs(lines[i..]))
    {
      var line := TrimSpace(lines[i]);
      assert lines[i..][0] == lines[i] && lines[i..][1..] == lines[i + 1..];
      ghost var rest := Pairs(lines[i + 1..]);
      assert [] + rest == rest;
      i := i + 1;
      if line == "" {
        continue;
      }
      var colon := IndexChar(line, ':');
      if colon < 0 {
        continue;
      }
      var key := TrimSpace(line[..colon]);
      var val := TrimSpace(line[colon + 1..]);
      val := StripQuotes(val);
      assert ([Field(key, val)] + rest)[1..] == rest;
      var updated := AssignPair(m, key, val);
      if updated.Err? {
        return updated;
      }
      m := updated.value;
    }
    return Ok(m);
  }

  /** The search for the closing delimiter, in the parser's order of preference. */
  method FindClosing(rest: string) returns (closeIdx: int)
    ensures closeIdx == CloseIndex(rest)
  {
    closeIdx := Index(rest, "\n---\n");
    if closeIdx < 0 {
      closeIdx := Index(rest, "\n---\r\n");
    }
    if closeIdx < 0 {
      if HasSuffix(rest, "\n---") {
        closeIdx := |rest| - 4;
      }
    }
  }

  method StripClosing(closing: string) returns (body: string)
    ensures body == BodyAfter(closing)
  {
    body := TrimPrefix(closing, "\n---\n");
    body := TrimPrefix(body, "\n---\r\n");
    body := TrimPrefix(body, "\n---");
    body := TrimPrefix(body, "\n");
  }

  /** The parser: both delimiters, the frontmatter, then the body. */
  method ParseDMail(s: string) returns (r: Result<Mail, ParseError>)
    ensures r == Parse(s)
  {
    if !Opens(s) {
      return Err(MissingOpening);
    }
    var rest := AfterOpening(s);
    var closeIdx := FindClosing(rest);
    if closeIdx < 0 {
      return Err(MissingClosing);
    }
    var m := ReadFrontmatter(Split(rest[..closeIdx], '\n'));
    if m.Err? {
      return m;
    }
    if m.value.kind == "" {
      return Err(KindRequired);
    }
    var body := StripClosing(rest[closeIdx..]);
    return Ok(m.value.(body := body));
  }
}
