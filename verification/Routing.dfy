/**
 Archive routing: the id:path list of the environment (internal/adapter/output/phonewave/writer.go)
 and the router built from it (internal/adapter/input/phonewave/router.go). Go iterates over the
 map in any order; because no directory may contain another, that order never shows.
 */
module Routing {
  import opened Wrappers
  import opened Projects
  import opened Text
  import Sorting

  // ---------------------------------------------------------------- the list of directories

  datatype DirError = EmptyEntry | NotIdPath(entry: string) | InvalidId(id: string) | RelativePath(path: string)
      | DuplicateId(id: string)

  type Dirs = map<string, string>

  datatype Entry = Entry(project: string, dir: string)

  predicate IsAbs(path: string) {
    path != "" && path[0] == '/'
  }

  function ParseEntry(raw: string): Result<Entry, DirError> {
    var entry := TrimSpace(raw);
    var idx := IndexChar(entry, ':');
    if entry == "" then Err(EmptyEntry)
    else if idx <= 0 || idx == |entry| - 1 then Err(NotIdPath(entry))
    else
      var id, path := TrimSpace(entry[..idx]), TrimSpace(entry[idx + 1..]);
      if !ValidProjectId(id) then Err(InvalidId(id))
      else if !IsAbs(path) then Err(RelativePath(path))
      else Ok(Entry(id, path))
  }

  /** The map the entries read so far make up, or the first error among them. */
  function Collect(parts: seq<string>): Result<Dirs, DirError> {
    if parts == [] then Ok(map[])
    else
      var n := |parts| - 1;
      var before := Collect(parts[..n]);
      if before.Err? then before
      else
        var e := ParseEntry(parts[n]);
        if e.Err? then Err(e.error)
        else if e.value.project in before.value then Err(DuplicateId(e.value.project))
        else Ok(before.value[e.value.project := e.value.dir])
  }

  /** The comma-separated parts; a blank list has none. */
  function Parts(s: string): seq<string> {
    if TrimSpace(s) == "" then [] else Split(TrimSpace(s), ',')
  }

  method ParseDirsByProject(s: string) returns (r: Result<Dirs, DirError>)
    ensures r == Collect(Parts(s))
  {
    hide ParseEntry, TrimSpace, Split;
    var dirs: Dirs := map[];
    var trimmed := TrimSpace(s);
    if trimmed == "" {
      return Ok(dirs);
    }
    var parts := Split(trimmed, ',');
    for i := 0 to |parts|
      invariant Collect(parts[..i]) == Ok(dirs)
    {
      assert parts[..i + 1][..i] == parts[..i];
      var e := ParseEntry(parts[i]);
      if e.Err? || e.value.project in dirs {
        r := Err(if e.Err? then e.error else DuplicateId(e.value.project));
        assert Collect(parts[..i + 1]) == r;
        ErrorStays(parts, i + 1);
        return;
      }
      dirs := dirs[e.value.project := e.value.dir];
    }
    assert parts[..|parts|] == parts;
    return Ok(dirs);
  }

  lemma {:induction false} ErrorStays(parts: seq<string>, n: nat)
    requires n <= |parts| && Collect(parts[..n]).Err?
    ensures Collect(parts) == Collect(parts[..n])
    decreases |parts|
  {
    hide ParseEntry;
    if n == |parts| {
      assert parts[..n] == parts;
    } else {
      var k := |parts| - 1;
      assert parts[..k][..n] == parts[..n];
      ErrorStays(parts[..k], n);
    }
  }

  /** How an entry is read, with blanks at its ends and around its first colon, and what refuses it. */
  lemma EntryReads(b: string, id: string, b': string, c: string, path: string, c': string)
    requires Blank(b) && Blank(b') && Blank(c) && Blank(c')
    requires id != "" && Trimmed(id) && ':' !in id && path != "" && Trimmed(path)
    ensures ParseEntry(b + (id + b' + ":" + c + path) + c')
         == if !ValidProjectId(id) then Err(InvalidId(id))
            else if path[0] != '/' then Err(RelativePath(path))
            else Ok(Entry(id, path))
  {
    hide TrimSpace, Trimmed, Blank, IndexChar, ValidProjectId;
    var left, right := id + b', c + path;
    var entry := id + b' + ":" + c + path;
    assert entry == left + [':'] + right;
    AroundColon(id, b', c, path);
    TrimBlanks(b, entry, c');
    TrimAfter(id, b');
    TrimBefore(c, path);
    IndexCharIs(left, ':', right);
    assert entry[..|left|] == left && entry[|left| + 1..] == right;
  }

  lemma AroundColon(id: string, b: string, c: string, path: string)
    requires Blank(b) && Blank(c) && id != "" && Trimmed(id) && ':' !in id && path != "" && Trimmed(path)
    ensures Trimmed(id + b + ":" + c + path) && ':' !in id + b && id + b + ":" + c + path != ""
  {
    var s := id + b + ":" + c + path;
    assert s == (id + b) + [':'] + (c + path);
    assert ':' !in b;
    hide LeadSpace, TrailSpace, Blank;
    LeadSpaceBefore(id + b, ':', c + path);
    LeadBeforeBlank(id, b);
    TrailSpaceAfter(id + b, ':', c + path);
    TrailAfterBlank(c, path);
  }

  /** What is no entry at all: blanks, a text without a colon, and one that starts with it or ends with its first. */
  lemma NoEntry(b: string, x: string, b': string)
    requires Blank(b) && Blank(b') && Trimmed(x)
    ensures x == "" ==> ParseEntry(b + x + b') == Err(EmptyEntry)
    ensures x != "" && (':' !in x || x[0] == ':' || (x[|x| - 1] == ':' && ':' !in x[..|x| - 1])) ==>
              ParseEntry(b + x + b') == Err(NotIdPath(x))
  {
    hide TrimSpace, Trimmed, IndexChar, ValidProjectId;
    if x == "" {
      assert b + x + b' == b + b';
      TrimAllBlank(b + b');
    } else {
      hide Blank;
      TrimBlanks(b, x, b');
      if x[0] == ':' {
        assert x == "" + [':'] + x[1..];
        IndexCharIs("", ':', x[1..]);
      } else if x[|x| - 1] == ':' && ':' !in x[..|x| - 1] {
        assert x == x[..|x| - 1] + [':'] + "";
        IndexCharIs(x[..|x| - 1], ':', "");
      }
    }
  }

  /** The part is an entry for this project. */
  predicate Names(part: string, id: string) {
    ParseEntry(part).Ok? && ParseEntry(part).value.project == id
  }

  predicate NamedIn(parts: seq<string>, id: string) {
    exists i :: 0 <= i < |parts| && Names(parts[i], id)
  }

  /** Every part is an entry, no project comes twice, and the map has each entry's directory and no more. */
  predicate Collected(parts: seq<string>, dirs: Dirs) {
    && (forall i | 0 <= i < |parts| ::
          && ParseEntry(parts[i]).Ok?
          && var e := ParseEntry(parts[i]).value; e.project in dirs && dirs[e.project] == e.dir)
    && (forall i, j | 0 <= i < j < |parts| :: !(Names(parts[j], ParseEntry(parts[i]).value.project)))
    && (forall id | id in dirs :: NamedIn(parts, id))
  }

  /** The first part that is no entry, or names a project again, and the error for it. */
  predicate RefusedAt(parts: seq<string>, n: nat, error: DirError) {
    && n < |parts|
    && match ParseEntry(parts[n])
       case Err(e) => error == e
       case Ok(e) => error == DuplicateId(e.project) && NamedIn(parts[..n], e.project)
  }

  lemma CollectedSnoc(parts: seq<string>, n: nat, dirs: Dirs, e: Entry)
    requires n < |parts| && Collected(parts[..n], dirs) && ParseEntry(parts[n]) == Ok(e)
    ensures e.project in dirs <==> NamedIn(parts[..n], e.project)
    ensures e.project !in dirs ==> Collected(parts[..n + 1], dirs[e.project := e.dir])
  {
    hide ParseEntry;
    var so, more, dirs' := parts[..n], parts[..n + 1], dirs[e.project := e.dir];
    assert more == so + [parts[n]];
    if NamedIn(so, e.project) {
      var i :| 0 <= i < |so| && Names(so[i], e.project);
    }
    if e.project !in dirs {
      forall id | id in dirs' ensures NamedIn(more, id) {
        if id == e.project {
          assert Names(more[n], id);
        } else {
          var i :| 0 <= i < |so| && Names(so[i], id);
          assert Names(more[i], id);
        }
      }
      forall i, j | 0 <= i < j < |more| ensures !Names(more[j], ParseEntry(more[i]).value.project) {
        if j < n {
          assert !Names(so[j], ParseEntry(so[i]).value.project);
        } else {
          assert ParseEntry(so[i]).Ok?;
        }
      }
    }
  }

  /**
   A list makes up the map of its entries, or is refused for its first part that is no entry or
   names a project again; nothing else is refused, since the parts before that one do make up a map.
   */
  lemma {:induction false} CollectExactly(parts: seq<string>) returns (bad: nat)
    ensures match Collect(parts)
            case Ok(dirs) => Collected(parts, dirs)
            case Err(error) =>
              && RefusedAt(parts, bad, error)
              && Collect(parts[..bad]).Ok? && Collected(parts[..bad], Collect(parts[..bad]).value)
    decreases |parts|
  {
    hide *;
    bad := 0;
    if parts == [] {
      NothingCollected(parts);
    } else {
      var n := |parts| - 1;
      CollectLast(parts, n);
      bad := CollectExactly(parts[..n]);
      if Collect(parts[..n]).Err? {
        RefusalStays(parts, n, bad, Collect(parts).error);
      } else {
        var dirs := Collect(parts[..n]).value;
        if ParseEntry(parts[n]).Ok? {
          CollectedSnoc(parts, n, dirs, ParseEntry(parts[n]).value);
          assert parts[..n + 1] == parts;
        }
        bad := n;
        RefusedHere(parts, n, dirs);
      }
    }
  }

  lemma NothingCollected(parts: seq<string>)
    requires parts == []
    ensures Collect(parts) == Ok(map[]) && Collected(parts, map[])
  {
  }

  lemma CollectLast(parts: seq<string>, n: nat)
    requires n + 1 == |parts|
    ensures var before, e := Collect(parts[..n]), ParseEntry(parts[n]);
            Collect(parts) == if before.Err? then before
                              else if e.Err? then Err(e.error)
                              else if e.value.project in before.value then Err(DuplicateId(e.value.project))
                              else Ok(before.value[e.value.project := e.value.dir])
  {
    hide ParseEntry;
  }

  lemma RefusalStays(parts: seq<string>, n: nat, bad: nat, error: DirError)
    requires n <= |parts| && RefusedAt(parts[..n], bad, error)
    ensures RefusedAt(parts, bad, error) && parts[..n][..bad] == parts[..bad]
  {
    hide ParseEntry, NamedIn;
    assert parts[..n][..bad] == parts[..bad];
  }

  lemma RefusedHere(parts: seq<string>, n: nat, dirs: Dirs)
    requires n + 1 == |parts| && Collected(parts[..n], dirs)
    ensures match ParseEntry(parts[n])
            case Err(error) => RefusedAt(parts, n, error)
            case Ok(e) => e.project in dirs ==> RefusedAt(parts, n, DuplicateId(e.project))
  {
    hide ParseEntry;
    if ParseEntry(parts[n]).Ok? {
      CollectedSnoc(parts, n, dirs, ParseEntry(parts[n]).value);
    }
    hide Collected, NamedIn;
  }

  lemma BlankListIsEmpty(s: string)
    requires Blank(s)
    ensures Collect(Parts(s)) == Ok(map[])
  {
    TrimAllBlank(s);
  }

  /** What the printer may be given: a valid id and a trimmed, comma-free, absolute path. */
  predicate CleanEntry(id: string, path: string) {
    ValidProjectId(id) && IsAbs(path) && Trimmed(path) && ',' !in path
  }

  lemma ParsedEntry(raw: string)
    requires ',' !in raw
    ensures var e := ParseEntry(raw); e.Ok? ==> CleanEntry(e.value.project, e.value.dir)
  {
    hide TrimSpace, Trimmed, ValidProjectId, IsAbs, IndexChar;
    var entry := TrimSpace(raw);
    TrimSpaceAddsNothing(raw, ',');
    var idx := IndexChar(entry, ':');
    if 0 < idx < |entry| - 1 {
      TailWithout(entry, idx + 1, ',');
      TrimmedPath(entry[idx + 1..]);
    }
  }

  lemma TailWithout(s: string, i: nat, c: char)
    requires c !in s && i <= |s|
    ensures c !in s[i..]
  {
  }

  lemma TrimmedPath(s: string)
    requires ',' !in s
    ensures ',' !in TrimSpace(s) && Trimmed(TrimSpace(s))
  {
    TrimSpaceAddsNothing(s, ',');
  }

  lemma {:induction false} CollectedClean(parts: seq<string>)
    requires forall p | p in parts :: ',' !in p
    requires Collect(parts).Ok?
    ensures |Collect(parts).value| == |parts|
    ensures forall id | id in Collect(parts).value :: CleanEntry(id, Collect(parts).value[id])
    decreases |parts|
  {
    if parts != [] {
      hide ParseEntry, CleanEntry;
      var n := |parts| - 1;
      CollectedClean(parts[..n]);
      assert parts[n] in parts;
      ParsedEntry(parts[n]);
    }
  }

  /** Every accepted list has one map entry per part, and in it only valid ids and absolute paths. */
  lemma AcceptedDirs(s: string)
    requires Collect(Parts(s)).Ok?
    ensures var dirs := Collect(Parts(s)).value;
            && |dirs| == |Parts(s)|
            && (forall id | id in dirs :: CleanEntry(id, dirs[id]))
  {
    hide TrimSpace, CleanEntry;
    CollectedClean(Parts(s));
  }

  // ---------------------------------------------------------------- printing and parsing again

  function FormatEntry(id: string, path: string): string {
    id + ":" + path
  }

  function FormatEntries(order: seq<string>, dirs: Dirs): (parts: seq<string>)
    requires forall id | id in order :: id in dirs
    ensures |parts| == |order|
  {
    seq(|order|, i requires 0 <= i < |order| => FormatEntry(order[i], dirs[order[i]]))
  }

  function PrintDirs(order: seq<string>, dirs: Dirs): string
    requires forall id | id in order :: id in dirs
  {
    Join(FormatEntries(order, dirs), ',')
  }

  predicate CleanDirs(dirs: Dirs) {
    forall id | id in dirs :: CleanEntry(id, dirs[id])
  }

  lemma SolidTrimmed(s: string)
    requires forall c | c in s :: Solid(c)
    ensures Trimmed(s)
  {
    if s != "" {
      assert s[0] in s && s[|s| - 1] in s;
    }
  }

  /** Text with a solid first byte and no white space at its end. */
  predicate Printable(s: string) {
    s != "" && Solid(s[0]) && TrailSpace(s) == 0
  }

  lemma PrintableEntry(id: string, path: string)
    requires CleanEntry(id, path)
    ensures Printable(FormatEntry(id, path)) && Trimmed(FormatEntry(id, path)) && Trimmed(id)
  {
    hide TrailSpace;
    assert FormatEntry(id, path) == id + [':'] + path;
    TrailSpaceAfter(id, ':', path);
    assert id[0] in id;
    SolidTrimmed(id);
  }

  lemma EntryRoundTrip(id: string, path: string)
    requires CleanEntry(id, path)
    ensures ParseEntry(FormatEntry(id, path)) == Ok(Entry(id, path))
    ensures ',' !in FormatEntry(id, path)
  {
    hide Trimmed, TrimSpace, IndexChar, Printable;
    var s := FormatEntry(id, path);
    assert s == id + [':'] + path;
    assert ':' !in id && ',' !in id;
    PrintableEntry(id, path);
    hide ValidProjectId, FormatEntry;
    IndexCharIs(id, ':', path);
    TrimSpaceNoop(s);
    TrimSpaceNoop(id);
    TrimSpaceNoop(path);
    assert s[..|id|] == id && s[|id| + 1..] == path;
  }

  function Restrict(dirs: Dirs, ids: seq<string>): Dirs {
    map id | id in ids && id in dirs :: dirs[id]
  }

  lemma RestrictSnoc(dirs: Dirs, order: seq<string>, n: nat)
    requires 0 < n <= |order| && order[n - 1] in dirs
    ensures Restrict(dirs, order[..n]) == Restrict(dirs, order[..n - 1])[order[n - 1] := dirs[order[n - 1]]]
  {
    assert order[..n] == order[..n - 1] + [order[n - 1]];
  }

  lemma CollectSnoc(parts: seq<string>, n: nat, before: Dirs, e: Entry)
    requires 0 < n <= |parts| && Collect(parts[..n - 1]) == Ok(before) && ParseEntry(parts[n - 1]) == Ok(e)
    requires e.project !in before
    ensures Collect(parts[..n]) == Ok(before[e.project := e.dir])
  {
    hide ParseEntry;
    assert parts[..n][..n - 1] == parts[..n - 1];
  }

  lemma {:induction false} CollectPrinted(order: seq<string>, dirs: Dirs, n: nat)
    requires CleanDirs(dirs) && (forall id | id in order :: id in dirs) && n <= |order|
    requires forall i, j | 0 <= i < j < |order| :: order[i] != order[j]
    ensures Collect(FormatEntries(order, dirs)[..n]) == Ok(Restrict(dirs, order[..n]))
    decreases n
  {
    hide ParseEntry, FormatEntry, CleanEntry;
    var parts := FormatEntries(order, dirs);
    if n > 0 {
      hide Collect;
      var id := order[n - 1];
      CollectPrinted(order, dirs, n - 1);
      EntryRoundTrip(id, dirs[id]);
      assert id !in order[..n - 1];
      CollectSnoc(parts, n, Restrict(dirs, order[..n - 1]), Entry(id, dirs[id]));
      RestrictSnoc(dirs, order, n);
    } else {
      assert parts[..n] == [] && order[..n] == [];
    }
  }

  /** The printed list starts with an id and ends with a path, so trimming leaves it alone. */
  lemma PrintedTrimmed(order: seq<string>, dirs: Dirs)
    requires CleanDirs(dirs) && (forall id | id in order :: id in dirs) && order != []
    ensures PrintDirs(order, dirs) != "" && Trimmed(PrintDirs(order, dirs))
  {
    hide TrailSpace, CleanEntry, ParseEntry;
    var parts := FormatEntries(order, dirs);
    forall i | 0 <= i < |parts| ensures Printable(parts[i]) {
      PrintableEntry(order[i], dirs[order[i]]);
    }
    JoinPrintable(parts);
  }

  lemma {:induction false} JoinPrintable(parts: seq<string>)
    requires parts != [] && forall i | 0 <= i < |parts| :: Printable(parts[i])
    ensures Printable(Join(parts, ',')) && Trimmed(Join(parts, ','))
  {
    hide TrailSpace;
    if |parts| > 1 {
      JoinPrintable(parts[1..]);
      TrailSpaceAfter(parts[0], ',', Join(parts[1..], ','));
      assert Join(parts, ',')[0] == parts[0][0];
    }
  }

  /**
   Printing a map in any order and parsing it again gives back the map exactly when every id is
   valid and every path absolute, trimmed and free of commas.
   */
  lemma DirsRoundTripExactly(order: seq<string>, dirs: Dirs)
    requires Sorting.Lists(order, dirs.Keys)
    requires forall id | id in order :: id in dirs
    ensures Collect(Parts(PrintDirs(order, dirs))) == Ok(dirs) <==> CleanDirs(dirs)
  {
    hide CleanEntry, PrintDirs, Parts, Collect;
    if CleanDirs(dirs) {
      DirsRoundTrip(order, dirs);
    }
    if Collect(Parts(PrintDirs(order, dirs))) == Ok(dirs) {
      AcceptedDirs(PrintDirs(order, dirs));
    }
  }

  lemma PrintedParts(order: seq<string>, dirs: Dirs)
    requires CleanDirs(dirs) && forall id | id in order :: id in dirs
    ensures Parts(PrintDirs(order, dirs)) == FormatEntries(order, dirs)
  {
    var parts := FormatEntries(order, dirs);
    if order == [] {
      TrimSpaceNoop("");
    } else {
      PrintedTrimmed(order, dirs);
      hide TrimSpace, Trimmed, Join, Split, FormatEntry, CleanEntry, FormatEntries;
      TrimSpaceNoop(Join(parts, ','));
      forall p | p in parts ensures ',' !in p {
        PartComes(order, dirs, p);
      }
      SplitJoin(parts, ',');
    }
  }

  lemma PartComes(order: seq<string>, dirs: Dirs, p: string)
    requires CleanDirs(dirs) && (forall id | id in order :: id in dirs) && p in FormatEntries(order, dirs)
    ensures ',' !in p
  {
    hide CleanEntry, FormatEntry, ParseEntry;
    var i :| 0 <= i < |order| && FormatEntries(order, dirs)[i] == p;
    EntryRoundTrip(order[i], dirs[order[i]]);
  }

  lemma DirsRoundTrip(order: seq<string>, dirs: Dirs)
    requires Sorting.Lists(order, dirs.Keys) && CleanDirs(dirs)
    requires forall id | id in order :: id in dirs
    ensures Collect(Parts(PrintDirs(order, dirs))) == Ok(dirs)
  {
    hide CleanDirs, PrintDirs, Parts, Collect, FormatEntries;
    Sorting.ListsMembers(order, dirs.Keys);
    PrintedParts(order, dirs);
    CollectPrinted(order, dirs, |order|);
    var parts := FormatEntries(order, dirs);
    assert order[..|order|] == order && parts[..|order|] == parts;
    assert Restrict(dirs, order) == dirs;
  }

  // ---------------------------------------------------------------- the router

  /** A directory covers itself and everything below it. */
  predicate Covers(dir: string, path: string) {
    path == dir || dir + "/" <= path
  }

  predicate Overlap(a: string, b: string) {
    Covers(a, b) || Covers(b, a)
  }

  datatype RouterError = Duplicate(first: string, second: string) | Nested(outer: string, inner: string)

  /** No two projects have directories one of which is or contains the other, once cleaned. */
  ghost predicate Separate(dirs: Dirs, clean: string -> string) {
    forall a, b | a in dirs && b in dirs && a != b :: !Overlap(clean(dirs[a]), clean(dirs[b]))
  }

  function EntriesOf(order: seq<string>, dirs: Dirs, clean: string -> string): (entries: seq<Entry>)
    requires forall id | id in order :: id in dirs
    ensures |entries| == |order|
  {
    seq(|order|, i requires 0 <= i < |order| => Entry(order[i], clean(dirs[order[i]])))
  }

  /** The error names two projects that really overlap. */
  predicate Justified(dirs: Dirs, clean: string -> string, e: RouterError) {
    match e
    case Duplicate(a, b) => a in dirs && b in dirs && a != b && clean(dirs[a]) == clean(dirs[b])
    case Nested(a, b) => a in dirs && b in dirs && a != b && clean(dirs[a]) + "/" <= clean(dirs[b])
  }

  /**
   The map's keys come in an arbitrary order. Construction succeeds exactly when no directory is
   or contains another, and the entries are the map's, one per project.
   */
  method NewMultiArchiveRouter(dirs: Dirs, order: seq<string>, clean: string -> string)
    returns (r: Result<seq<Entry>, RouterError>)
    requires Sorting.Lists(order, dirs.Keys)
    ensures forall id | id in order :: id in dirs
    ensures r.Ok? <==> Separate(dirs, clean)
    ensures r.Ok? ==> r.value == EntriesOf(order, dirs, clean)
    ensures r.Err? ==> Justified(dirs, clean, r.error)
  {
    hide Separate, Overlap;
    Sorting.ListsMembers(order, dirs.Keys);
    var entries: seq<Entry> := [];
    for i := 0 to |order|
      invariant |entries| == i
      invariant forall k | 0 <= k < i :: entries[k] == Entry(order[k], clean(dirs[order[k]]))
    {
      entries := entries + [Entry(order[i], clean(dirs[order[i]]))];
    }
    for i := 0 to |entries|
      invariant forall k, j | 0 <= k < i && 0 <= j < |entries| && k != j :: !Covers(entries[k].dir, entries[j].dir)
    {
      for j := 0 to |entries|
        invariant forall l | 0 <= l < j && l != i :: !Covers(entries[i].dir, entries[l].dir)
      {
        if i == j {
          continue;
        }
        if entries[i].dir == entries[j].dir {
          OverlapFound(dirs, clean, order[i], order[j]);
          return Err(Duplicate(entries[i].project, entries[j].project));
        }
        if entries[i].dir + "/" <= entries[j].dir {
          OverlapFound(dirs, clean, order[i], order[j]);
          return Err(Nested(entries[i].project, entries[j].project));
        }
      }
    }
    AllApart(dirs, order, clean, entries);
    return Ok(entries);
  }

  lemma AllApart(dirs: Dirs, order: seq<string>, clean: string -> string, entries: seq<Entry>)
    requires (forall id :: id in order <==> id in dirs) && entries == EntriesOf(order, dirs, clean)
    requires forall i, j | 0 <= i < |entries| && 0 <= j < |entries| && i != j :: !Covers(entries[i].dir, entries[j].dir)
    ensures Separate(dirs, clean)
  {
    hide Covers;
    forall a, b | a in dirs && b in dirs && a != b ensures !Overlap(clean(dirs[a]), clean(dirs[b])) {
      var i :| 0 <= i < |order| && order[i] == a;
      var j :| 0 <= j < |order| && order[j] == b;
      assert !Covers(entries[i].dir, entries[j].dir) && !Covers(entries[j].dir, entries[i].dir);
    }
  }

  lemma OverlapFound(dirs: Dirs, clean: string -> string, a: string, b: string)
    requires a in dirs && b in dirs && a != b && Covers(clean(dirs[a]), clean(dirs[b]))
    ensures !Separate(dirs, clean)
  {
  }

  /** A project whose directory covers the path, or none if no directory does. */
  ghost predicate Resolved(entries: seq<Entry>, path: string, project: Option<string>) {
    && (project.Some? ==> exists e :: e in entries && e.project == project.value && Covers(e.dir, path))
    && (project.None? ==> forall e | e in entries :: !Covers(e.dir, path))
  }

  /** The first entry that covers the path. */
  method ResolveProjectID(entries: seq<Entry>, clean: string -> string, eventPath: string)
    returns (project: Option<string>)
    ensures Resolved(entries, clean(eventPath), project)
  {
    var cleaned := clean(eventPath);
    for i := 0 to |entries|
      invariant forall k | 0 <= k < i :: !Covers(entries[k].dir, cleaned)
    {
      var e := entries[i];
      assert e in entries;
      if cleaned == e.dir {
        return Some(e.project);
      }
      if e.dir + "/" <= cleaned {
        return Some(e.project);
      }
    }
    return None;
  }

  /** Two directories that cover one path overlap. */
  lemma CommonPathOverlaps(a: string, b: string, path: string)
    requires Covers(a, path) && Covers(b, path)
    ensures Overlap(a, b)
  {
    var s := path + "/";
    assert a == s[..|a|] && b == s[..|b|];
    if |a| < |b| {
      assert a + "/" == s[..|a| + 1] && s[..|a| + 1] == b[..|a| + 1];
    } else if |b| < |a| {
      assert b + "/" == s[..|b| + 1] && s[..|b| + 1] == a[..|b| + 1];
    }
  }

  /** At most one project covers a path. */
  lemma SoleCover(dirs: Dirs, clean: string -> string, a: string, b: string, path: string)
    requires Separate(dirs, clean) && a in dirs && b in dirs
    requires Covers(clean(dirs[a]), path) && Covers(clean(dirs[b]), path)
    ensures a == b
  {
    if a != b {
      CommonPathOverlaps(clean(dirs[a]), clean(dirs[b]), path);
    }
  }

  lemma AnswerMeans(order: seq<string>, dirs: Dirs, clean: string -> string, path: string, project: Option<string>)
    requires Sorting.Lists(order, dirs.Keys) && forall id | id in order :: id in dirs
    requires Resolved(EntriesOf(order, dirs, clean), path, project)
    ensures project.Some? ==> project.value in dirs && Covers(clean(dirs[project.value]), path)
    ensures project.None? ==> forall id | id in dirs :: !Covers(clean(dirs[id]), path)
  {
    hide Covers;
    Sorting.ListsMembers(order, dirs.Keys);
    var entries := EntriesOf(order, dirs, clean);
    if project.None? {
      forall id | id in dirs ensures !Covers(clean(dirs[id]), path) {
        var i :| 0 <= i < |order| && order[i] == id;
        assert entries[i] in entries;
      }
    }
  }

  /** Whatever order the router was built in, a path goes to the same project, or to none. */
  lemma OrderNeverShows(dirs: Dirs, clean: string -> string, one: seq<string>, other: seq<string>, path: string,
                        p: Option<string>, q: Option<string>)
    requires Sorting.Lists(one, dirs.Keys) && Sorting.Lists(other, dirs.Keys) && Separate(dirs, clean)
    requires (forall id | id in one :: id in dirs) && (forall id | id in other :: id in dirs)
    requires Resolved(EntriesOf(one, dirs, clean), path, p) && Resolved(EntriesOf(other, dirs, clean), path, q)
    ensures p == q
  {
    AnswerMeans(one, dirs, clean, path, p);
    AnswerMeans(other, dirs, clean, path, q);
    hide Covers, Resolved, Separate;
    if p.Some? && q.Some? {
      SoleCover(dirs, clean, p.value, q.value, path);
    }
  }

  // ---------------------------------------------------------------- what covering means

  predicate Component(c: string) {
    c != "" && '/' !in c
  }

  /** A cleaned absolute path, from its components. */
  function PathOf(components: seq<string>): string {
    "/" + Join(components, '/')
  }

  /** Every component followed by a slash. */
  function Slashed(components: seq<string>): string {
    if components == [] then "" else components[0] + "/" + Slashed(components[1..])
  }

  lemma {:induction false} PathSlashed(components: seq<string>)
    requires components != []
    ensures PathOf(components) + "/" == "/" + Slashed(components)
  {
    var c, rest := components[0], components[1..];
    if |components| > 1 {
      PathSlashed(rest);
      assert PathOf(rest) + "/" == "/" + (Join(rest, '/') + "/");
      assert (PathOf(rest) + "/")[1..] == Join(rest, '/') + "/" && ("/" + Slashed(rest))[1..] == Slashed(rest);
      assert PathOf(components) + "/" == "/" + (c + "/" + (Join(rest, '/') + "/"));
    } else {
      assert Slashed(rest) == "";
      assert PathOf(components) + "/" == "/" + (c + "/");
    }
  }

  lemma SlashSplits(a: string, x: string, b: string, y: string)
    requires '/' !in a && '/' !in b
    ensures a + "/" + x <= b + "/" + y <==> a == b && x <= y
  {
    var s, t := a + "/" + x, b + "/" + y;
    assert s[|a|] == '/' && t[|b|] == '/';
    assert forall i | 0 <= i < |a| :: s[i] == a[i];
    assert forall i | 0 <= i < |b| :: t[i] == b[i];
    if a == b && x <= y {
      assert t == s + y[|x|..];
    }
    if s <= t {
      assert forall i | 0 <= i < |s| :: s[i] == t[i];
      assert |a| == |b|;
      assert s[..|a|] == a && t[..|b|] == b;
      assert x == s[|a| + 1..] && y == t[|b| + 1..];
    }
  }

  lemma {:induction false} SlashedPrefix(ds: seq<string>, ps: seq<string>)
    requires (forall d | d in ds :: Component(d)) && (forall p | p in ps :: Component(p))
    ensures Slashed(ds) <= Slashed(ps) <==> ds <= ps
    decreases |ds|
  {
    if ds != [] && ps != [] {
      assert ds[0] in ds && ps[0] in ps;
      SlashSplits(ds[0], Slashed(ds[1..]), ps[0], Slashed(ps[1..]));
      SlashedPrefix(ds[1..], ps[1..]);
      assert ds == [ds[0]] + ds[1..] && ps == [ps[0]] + ps[1..];
      assert ds <= ps <==> ds[0] == ps[0] && ds[1..] <= ps[1..];
    }
  }

  lemma CoversSlashed(dir: string, path: string)
    ensures Covers(dir, path) <==> dir + "/" <= path + "/"
  {
    var s, t := dir + "/", path + "/";
    if s <= t {
      if |s| == |t| {
        assert dir == s[..|dir|] && path == t[..|path|];
      } else {
        assert s == t[..|s|] && t[..|s|] == path[..|s|];
      }
    }
  }

  /**
   Between cleaned absolute paths, covering is containment in the tree, except that the root
   directory covers nothing but itself.
   */
  lemma CoversIsContainment(ds: seq<string>, ps: seq<string>)
    requires (forall d | d in ds :: Component(d)) && (forall p | p in ps :: Component(p))
    ensures Covers(PathOf(ds), PathOf(ps)) <==> ds <= ps && (ds != [] || ps == [])
  {
    CoversSlashed(PathOf(ds), PathOf(ps));
    var s, t := PathOf(ds) + "/", PathOf(ps) + "/";
    if ds != [] && ps != [] {
      PathSlashed(ds);
      PathSlashed(ps);
      SlashedPrefix(ds, ps);
      SlashSplits("", Slashed(ds), "", Slashed(ps));
      assert "" + "/" + Slashed(ds) == "/" + Slashed(ds) && "" + "/" + Slashed(ps) == "/" + Slashed(ps);
    } else if ds == [] && ps != [] {
      PathSlashed(ps);
      assert s == "//" && ps[0] in ps && t[1] == ps[0][0] && ps[0][0] in ps[0];
    } else if ds != [] {
      PathSlashed(ds);
      assert t == "//" && ds[0] in ds && s[1] == ds[0][0] && ds[0][0] in ds[0];
    }
  }
}
