/** The parser of `git status --porcelain=v2 -z`, against a printer of that format. */
module GitStatus {
  import opened Prelude

  type Bytes = seq<byte>

  const NUL: byte := 0
  const SPACE: byte := 32
  const HASH: byte := 35        // '#'
  const ORDINARY: byte := 49    // '1'
  const RENAME: byte := 50      // '2'
  const UNMERGED: byte := 117   // 'u'
  const UNTRACKED: byte := 63   // '?'
  const IGNORED: byte := 33     // '!'

  datatype Kind = Ordinary | RenamedOrCopied | Unmerged | Untracked | Ignored

  datatype Entry = Entry(path: Bytes, original: Option<Bytes>, index: byte, worktree: byte, kind: Kind)

  datatype ParseError = MalformedGitOutput

  // ----- splitting, as slices do it

  /** Index of the first separator, or the length when there is none. */
  function Find(sep: byte, s: Bytes): (i: nat)
    ensures i <= |s| && sep !in s[..i] && (i < |s| ==> s[i] == sep)
  {
    if sep in s then
      FirstSeparator(sep, s);
      var i :| 0 <= i < |s| && s[i] == sep && sep !in s[..i];
      i
    else |s|
  }

  lemma {:induction false} FirstSeparator(sep: byte, s: Bytes)
    requires sep in s
    ensures exists i :: 0 <= i < |s| && s[i] == sep && sep !in s[..i]
  {
    if s[0] == sep {
      assert sep !in s[..0];
    } else {
      FirstSeparator(sep, s[1..]);
      var i :| 0 <= i < |s| - 1 && s[1..][i] == sep && sep !in s[1..][..i];
      assert s[..i + 1] == [s[0]] + s[1..][..i] && s[i + 1] == sep;
    }
  }

  function Split(sep: byte, s: Bytes): (parts: seq<Bytes>)
    ensures |parts| >= 1
    decreases |s|
  {
    var i := Find(sep, s);
    if i == |s| then [s] else [s[..i]] + Split(sep, s[i + 1..])
  }

  /** At most `n` parts; the last one keeps whatever separators it holds. */
  function SplitN(n: nat, sep: byte, s: Bytes): (parts: seq<Bytes>)
    requires n >= 1
    ensures 1 <= |parts| <= n
  {
    var i := Find(sep, s);
    if n == 1 || i == |s| then [s] else [s[..i]] + SplitN(n - 1, sep, s[i + 1..])
  }

  // ----- the parser

  function StatusEntry(status: Bytes, path: Bytes, original: Option<Bytes>, kind: Kind): Result<Entry, ParseError> {
    if |status| != 2 || path == [] then Err(MalformedGitOutput)
    else Ok(Entry(path, original, status[0], status[1], kind))
  }

  function ParseOrdinary(record: Bytes): Result<Entry, ParseError> {
    var fields := SplitN(9, SPACE, record);
    if |fields| != 9 then Err(MalformedGitOutput) else StatusEntry(fields[1], fields[8], None, Ordinary)
  }

  function ParseRename(record: Bytes, original: Bytes): Result<Entry, ParseError> {
    var fields := SplitN(10, SPACE, record);
    if |fields| != 10 || original == [] then Err(MalformedGitOutput)
    else StatusEntry(fields[1], fields[9], Some(original), RenamedOrCopied)
  }

  function ParseUnmerged(record: Bytes): Result<Entry, ParseError> {
    var fields := SplitN(11, SPACE, record);
    if |fields| != 11 then Err(MalformedGitOutput) else StatusEntry(fields[1], fields[10], None, Unmerged)
  }

  function ParseSimple(record: Bytes, kind: Kind, status: byte): Result<Entry, ParseError> {
    if |record| <= 2 then Err(MalformedGitOutput) else Ok(Entry(record[2..], None, status, status, kind))
  }

  predicate Skipped(record: Bytes) {
    record == [] || (|record| >= 2 && record[0] == HASH && record[1] == SPACE)
  }

  /** One record, and the one after it, which only a rename uses. */
  function ParseRecord(record: Bytes, next: Option<Bytes>): Result<Entry, ParseError>
    requires record != []
  {
    if record[0] == ORDINARY then ParseOrdinary(record)
    else if record[0] == RENAME then
      if next.None? then Err(MalformedGitOutput) else ParseRename(record, next.value)
    else if record[0] == UNMERGED then ParseUnmerged(record)
    else if record[0] == UNTRACKED then ParseSimple(record, Untracked, UNTRACKED)
    else if record[0] == IGNORED then ParseSimple(record, Ignored, IGNORED)
    else Err(MalformedGitOutput)
  }

  function Width(record: Bytes): nat {
    if !Skipped(record) && record[0] == RENAME then 2 else 1
  }

  /** What a list of records means. */
  function Parse(records: seq<Bytes>): Result<seq<Entry>, ParseError> {
    if records == [] then Ok([])
    else if Skipped(records[0]) then Parse(records[1..])
    else
      match ParseRecord(records[0], if |records| > 1 then Some(records[1]) else None)
      case Err(error) => Err(error)
      case Ok(entry) =>
        match Parse(records[Min(Width(records[0]), |records|)..])
        case Err(error) => Err(error)
        case Ok(entries) => Ok([entry] + entries)
  }

  function Prepend(entries: seq<Entry>, r: Result<seq<Entry>, ParseError>): Result<seq<Entry>, ParseError> {
    match r
    case Err(error) => Err(error)
    case Ok(more) => Ok(entries + more)
  }

  function NextRecord(records: seq<Bytes>, i: nat): Option<Bytes> {
    if i + 1 < |records| then Some(records[i + 1]) else None
  }

  lemma ParseSkips(records: seq<Bytes>, i: nat)
    requires i < |records| && Skipped(records[i])
    ensures Parse(records[i..]) == Parse(records[i + 1..])
  {
    assert records[i..][1..] == records[i + 1..];
  }

  lemma ParseTakes(records: seq<Bytes>, i: nat)
    requires i < |records| && !Skipped(records[i])
    ensures var parsed := ParseRecord(records[i], NextRecord(records, i));
      && (parsed.Err? ==> Parse(records[i..]).Err?)
      && (parsed.Ok? ==> i + Width(records[i]) <= |records|)
      && (parsed.Ok? ==> Parse(records[i..]) == Prepend([parsed.value], Parse(records[i + Width(records[i])..])))
  {
    var here := records[i..];
    assert here[0] == records[i] && (|here| > 1 ==> here[1] == records[i + 1]);
    if ParseRecord(records[i], NextRecord(records, i)).Ok? {
      assert here[Width(records[i])..] == records[i + Width(records[i])..];
    }
  }

  lemma PrependNone(r: Result<seq<Entry>, ParseError>)
    ensures Prepend([], r) == r
  {
    if r.Ok? {
      assert [] + r.value == r.value;
    }
  }

  lemma PrependAgain(entries: seq<Entry>, entry: Entry, r: Result<seq<Entry>, ParseError>)
    ensures Prepend(entries, Prepend([entry], r)) == Prepend(entries + [entry], r)
  {
    if r.Ok? {
      assert entries + ([entry] + r.value) == (entries + [entry]) + r.value;
    }
  }

  method ParseStatus(bytes: Bytes) returns (r: Result<seq<Entry>, ParseError>)
    ensures r == Parse(Split(NUL, bytes))
  {
    var records := Split(NUL, bytes);
    var entries := [];
    var index := 0;
    assert records[0..] == records;
    PrependNone(Parse(records));
    while index < |records|
      invariant 0 <= index <= |records|
      invariant Parse(records) == Prepend(entries, Parse(records[index..]))
    {
      var record := records[index];
      ghost var here := index;
      index := index + 1;
      if Skipped(record) {
        ParseSkips(records, here);
        continue;
      }
      ParseTakes(records, here);
      var original := None;
      if record[0] == RENAME {
        if index == |records| {
          return Err(MalformedGitOutput);
        }
        original := Some(records[index]);
        index := index + 1;
      }
      var parsed := ParseRecord(record, original);
      assert parsed == ParseRecord(record, NextRecord(records, here));
      if parsed.Err? {
        return Err(MalformedGitOutput);
      }
      PrependAgain(entries, parsed.value, Parse(records[index..]));
      entries := entries + [parsed.value];
    }
    assert entries + [] == entries;
    return Ok(entries);
  }

  // ----- the printer

  /** A line of status output: an entry with the fields that the parser passes over, or a header. */
  datatype Item =
    | EntryItem(entry: Entry, between: seq<Bytes>)
    | HeaderItem(text: Bytes)

  /** How many fields stand between the status letters and the path. */
  function FieldsBetween(kind: Kind): nat {
    match kind
    case Ordinary => 6
    case RenamedOrCopied => 7
    case Unmerged => 8
    case Untracked => 0
    case Ignored => 0
  }

  predicate NulFree(s: Bytes) {
    NUL !in s
  }

  predicate WellFormed(e: Entry) {
    && e.path != [] && NulFree(e.path)
    && (e.original.Some? <==> e.kind == RenamedOrCopied)
    && (e.original.Some? ==> e.original.value != [] && NulFree(e.original.value))
    && (match e.kind
        case Untracked => e.index == UNTRACKED && e.worktree == UNTRACKED
        case Ignored => e.index == IGNORED && e.worktree == IGNORED
        case _ => NUL !in [e.index, e.worktree] && SPACE !in [e.index, e.worktree])
  }

  predicate WellFormedItem(item: Item) {
    match item
    case HeaderItem(text) => NulFree(text)
    case EntryItem(entry, between) =>
      && WellFormed(entry) && |between| == FieldsBetween(entry.kind)
      && forall i :: 0 <= i < |between| ==> NulFree(between[i]) && SPACE !in between[i]
  }

  /** Each field followed by a space, then the path. */
  function JoinBefore(fields: seq<Bytes>, path: Bytes): Bytes {
    if fields == [] then path else fields[0] + [SPACE] + JoinBefore(fields[1..], path)
  }

  function Tag(kind: Kind): byte {
    match kind
    case Ordinary => ORDINARY
    case RenamedOrCopied => RENAME
    case Unmerged => UNMERGED
    case Untracked => UNTRACKED
    case Ignored => IGNORED
  }

  /** The space-separated fields of a tracked entry, before its path. */
  function Columns(e: Entry, between: seq<Bytes>): seq<Bytes> {
    [[Tag(e.kind)], [e.index, e.worktree]] + between
  }

  function RecordOf(item: Item): Bytes {
    match item
    case HeaderItem(text) => [HASH, SPACE] + text
    case EntryItem(e, between) =>
      if e.kind == Untracked || e.kind == Ignored then [Tag(e.kind), SPACE] + e.path
      else JoinBefore(Columns(e, between), e.path)
  }

  /** The records of one item: a rename is followed by its original path. */
  function RecordsOf(item: Item): seq<Bytes> {
    if item.EntryItem? && item.entry.original.Some? then [RecordOf(item), item.entry.original.value]
    else [RecordOf(item)]
  }

  function Terminate(records: seq<Bytes>): Bytes {
    if records == [] then [] else records[0] + [NUL] + Terminate(records[1..])
  }

  function Print(items: seq<Item>): Bytes {
    if items == [] then [] else Terminate(RecordsOf(items[0])) + Print(items[1..])
  }

  function EntriesOf(items: seq<Item>): seq<Entry> {
    if items == [] then []
    else (if items[0].EntryItem? then [items[0].entry] else []) + EntriesOf(items[1..])
  }

  // ----- parsing undoes printing

  lemma FindPast(sep: byte, s: Bytes, rest: Bytes)
    requires sep !in s
    ensures Find(sep, s + [sep] + rest) == |s|
  {
    var all := s + [sep] + rest;
    assert all[|s|] == sep && Find(sep, all) <= |all|;
    assert forall i :: 0 <= i < |s| ==> all[i] == s[i];
    assert forall i :: |s| < i <= |all| ==> all[..i][|s|] == sep;
  }

  lemma SplitFirst(sep: byte, s: Bytes, rest: Bytes)
    requires sep !in s
    ensures Split(sep, s + [sep] + rest) == [s] + Split(sep, rest)
  {
    FindPast(sep, s, rest);
    var all := s + [sep] + rest;
    assert all[..|s|] == s && all[|s| + 1..] == rest;
  }

  lemma TerminateFirst(records: seq<Bytes>, rest: Bytes)
    requires records != []
    ensures Terminate(records) + rest == records[0] + [NUL] + (Terminate(records[1..]) + rest)
  {
  }

  lemma {:induction false} SplitTerminated(records: seq<Bytes>, rest: Bytes)
    requires forall i :: 0 <= i < |records| ==> NulFree(records[i])
    ensures Split(NUL, Terminate(records) + rest) == records + Split(NUL, rest)
  {
    if records == [] {
      assert Terminate(records) + rest == rest;
    } else {
      TerminateFirst(records, rest);
      SplitFirst(NUL, records[0], Terminate(records[1..]) + rest);
      SplitTerminated(records[1..], rest);
      Uncons(records, Split(NUL, rest));
    }
  }

  lemma Uncons(parts: seq<Bytes>, more: seq<Bytes>)
    requires parts != []
    ensures parts + more == [parts[0]] + (parts[1..] + more)
  {
  }

  lemma {:induction false} SplitNJoined(fields: seq<Bytes>, path: Bytes)
    requires forall i :: 0 <= i < |fields| ==> SPACE !in fields[i]
    ensures SplitN(|fields| + 1, SPACE, JoinBefore(fields, path)) == fields + [path]
  {
    if fields == [] {
      assert [] + [path] == [path];
    } else {
      var tail := JoinBefore(fields[1..], path);
      var all := fields[0] + [SPACE] + tail;
      FindPast(SPACE, fields[0], tail);
      assert all[..|fields[0]|] == fields[0] && all[|fields[0]| + 1..] == tail;
      SplitNJoined(fields[1..], path);
      Uncons(fields, [path]);
    }
  }

  lemma {:induction false} JoinNulFree(fields: seq<Bytes>, path: Bytes)
    requires NulFree(path) && forall i :: 0 <= i < |fields| ==> NulFree(fields[i])
    ensures NulFree(JoinBefore(fields, path))
  {
    if fields != [] {
      JoinNulFree(fields[1..], path);
    }
  }

  lemma ColumnsAreClean(e: Entry, between: seq<Bytes>)
    requires WellFormedItem(EntryItem(e, between)) && e.kind != Untracked && e.kind != Ignored
    ensures forall i :: 0 <= i < |Columns(e, between)| ==>
      NulFree(Columns(e, between)[i]) && SPACE !in Columns(e, between)[i]
  {
    var fields := Columns(e, between);
    assert fields[0] == [Tag(e.kind)] && fields[1] == [e.index, e.worktree];
    assert forall i :: 2 <= i < |fields| ==> fields[i] == between[i - 2];
  }

  /** A printed record has no NUL, begins with its tag and splits into its columns. */
  lemma ColumnsSplit(e: Entry, between: seq<Bytes>)
    requires WellFormedItem(EntryItem(e, between)) && e.kind != Untracked && e.kind != Ignored
    ensures var record := RecordOf(EntryItem(e, between));
      && NulFree(record) && record != [] && record[0] == Tag(e.kind)
      && SplitN(FieldsBetween(e.kind) + 3, SPACE, record) == Columns(e, between) + [e.path]
  {
    ColumnsAreClean(e, between);
    JoinNulFree(Columns(e, between), e.path);
    SplitNJoined(Columns(e, between), e.path);
  }

  lemma EntryParses(e: Entry, between: seq<Bytes>, next: Option<Bytes>)
    requires WellFormedItem(EntryItem(e, between)) && (e.original.Some? ==> next == e.original)
    ensures var record := RecordOf(EntryItem(e, between));
      && NulFree(record) && !Skipped(record) && ParseRecord(record, next) == Ok(e)
      && Width(record) == |RecordsOf(EntryItem(e, between))|
  {
    var record := RecordOf(EntryItem(e, between));
    if e.kind == Untracked || e.kind == Ignored {
      assert record[2..] == e.path;
    } else {
      ColumnsSplit(e, between);
      var fields := Columns(e, between) + [e.path];
      assert fields[1] == [e.index, e.worktree] && fields[|fields| - 1] == e.path;
      assert StatusEntry(fields[1], e.path, e.original, e.kind) == Ok(e);
    }
  }

  function AllRecords(items: seq<Item>): seq<Bytes> {
    if items == [] then [] else RecordsOf(items[0]) + AllRecords(items[1..])
  }

  ghost predicate WellFormedItems(items: seq<Item>) {
    forall i :: 0 <= i < |items| ==> WellFormedItem(items[i])
  }

  lemma ItemIsNulFree(item: Item)
    requires WellFormedItem(item)
    ensures forall i :: 0 <= i < |RecordsOf(item)| ==> NulFree(RecordsOf(item)[i])
  {
    if item.EntryItem? {
      EntryParses(item.entry, item.between, item.entry.original);
    }
  }

  lemma {:induction false} SplitPrinted(items: seq<Item>)
    requires WellFormedItems(items)
    ensures Split(NUL, Print(items)) == AllRecords(items) + [[]]
  {
    if items != [] {
      ItemIsNulFree(items[0]);
      SplitPrinted(items[1..]);
      SplitTerminated(RecordsOf(items[0]), Print(items[1..]));
    }
  }

  lemma ParseItem(item: Item, rest: seq<Bytes>)
    requires WellFormedItem(item)
    ensures Parse(RecordsOf(item) + rest) == Prepend(if item.EntryItem? then [item.entry] else [], Parse(rest))
  {
    var records := RecordsOf(item) + rest;
    assert records[0..] == records && records[0] == RecordOf(item);
    if item.EntryItem? {
      EntryParses(item.entry, item.between, NextRecord(records, 0));
      ParseTakes(records, 0);
      assert records[|RecordsOf(item)|..] == rest;
    } else {
      ParseSkips(records, 0);
      assert records[1..] == rest;
      PrependNone(Parse(rest));
    }
  }

  lemma {:induction false} ParsePrinted(items: seq<Item>)
    requires WellFormedItems(items)
    ensures Parse(AllRecords(items) + [[]]) == Ok(EntriesOf(items))
  {
    if items == [] {
      var last: seq<Bytes> := [[]];
      assert AllRecords(items) + last == last && last[1..] == [];
    } else {
      var rest := AllRecords(items[1..]) + [[]];
      ParsePrinted(items[1..]);
      ParseItem(items[0], rest);
      assert AllRecords(items) + [[]] == RecordsOf(items[0]) + rest;
    }
  }

  /**
   Printing any well-formed items and parsing the output gives back the entries, whatever spaces,
   newlines or record-like text their paths contain.
   */
  lemma RoundTrip(items: seq<Item>)
    requires WellFormedItems(items)
    ensures Parse(Split(NUL, Print(items))) == Ok(EntriesOf(items))
  {
    SplitPrinted(items);
    ParsePrinted(items);
  }

  // ----- whatever is parsed can be printed

  lemma {:induction false} SplitIsNulFree(s: Bytes)
    ensures forall i :: 0 <= i < |Split(NUL, s)| ==> NulFree(Split(NUL, s)[i])
    decreases |s|
  {
    var i := Find(NUL, s);
    if i < |s| {
      SplitIsNulFree(s[i + 1..]);
    }
    assert s[..|s|] == s;
  }

  /** Parts without NUL, of which all but the `n`th are without spaces. */
  ghost predicate CleanParts(n: nat, parts: seq<Bytes>) {
    forall i :: 0 <= i < |parts| ==> NulFree(parts[i]) && (i < n - 1 ==> SPACE !in parts[i])
  }

  lemma {:induction false} SplitNIsClean(n: nat, s: Bytes)
    requires n >= 1 && NulFree(s)
    ensures CleanParts(n, SplitN(n, SPACE, s))
  {
    var i := Find(SPACE, s);
    if n > 1 && i < |s| {
      SplitNIsClean(n - 1, s[i + 1..]);
      CleanCons(n, s[..i], SplitN(n - 1, SPACE, s[i + 1..]));
    } else {
      assert s[..|s|] == s;
    }
  }

  lemma CleanCons(n: nat, part: Bytes, parts: seq<Bytes>)
    requires n >= 2 && NulFree(part) && SPACE !in part && CleanParts(n - 1, parts)
    ensures CleanParts(n, [part] + parts)
  {
  }

  lemma RecordIsWellFormed(record: Bytes, next: Option<Bytes>)
    requires record != [] && NulFree(record) && (next.Some? ==> NulFree(next.value))
    requires ParseRecord(record, next).Ok?
    ensures WellFormed(ParseRecord(record, next).value)
  {
    SplitNIsClean(9, record);
    SplitNIsClean(10, record);
    SplitNIsClean(11, record);
  }

  lemma {:induction false} ParsedIsWellFormed(records: seq<Bytes>)
    requires forall i :: 0 <= i < |records| ==> NulFree(records[i])
    ensures Parse(records).Ok? ==> forall i :: 0 <= i < |Parse(records).value| ==> WellFormed(Parse(records).value[i])
    decreases |records|
  {
    if records != [] {
      var next := if |records| > 1 then Some(records[1]) else None;
      if Skipped(records[0]) {
        ParsedIsWellFormed(records[1..]);
      } else if ParseRecord(records[0], next).Ok? {
        RecordIsWellFormed(records[0], next);
        ParsedIsWellFormed(records[Min(Width(records[0]), |records|)..]);
      }
    }
  }

  /** Whatever the parser accepts, printing its entries again, with any fields between, parses to the same entries. */
  lemma ReprintParses(bytes: Bytes, items: seq<Item>)
    requires Parse(Split(NUL, bytes)).Ok?
    requires |items| == |Parse(Split(NUL, bytes)).value|
    requires forall i :: 0 <= i < |items| ==>
      && items[i].EntryItem? && items[i].entry == Parse(Split(NUL, bytes)).value[i]
      && |items[i].between| == FieldsBetween(items[i].entry.kind)
      && forall j :: 0 <= j < |items[i].between| ==> NulFree(items[i].between[j]) && SPACE !in items[i].between[j]
    ensures Parse(Split(NUL, Print(items))) == Parse(Split(NUL, bytes))
  {
    SplitIsNulFree(bytes);
    ParsedIsWellFormed(Split(NUL, bytes));
    RoundTrip(items);
    EntriesOfItems(items, Parse(Split(NUL, bytes)).value);
  }

  lemma {:induction false} EntriesOfItems(items: seq<Item>, entries: seq<Entry>)
    requires |items| == |entries|
    requires forall i :: 0 <= i < |items| ==> items[i].EntryItem? && items[i].entry == entries[i]
    ensures EntriesOf(items) == entries
  {
    if items != [] {
      EntriesOfItems(items[1..], entries[1..]);
      assert entries == [entries[0]] + entries[1..];
    }
  }

  // ----- exactly what is accepted

  /** The record is these space-free fields, each followed by a space, and then the path. */
  predicate LaidOut(record: Bytes, n: nat, fields: seq<Bytes>, path: Bytes) {
    && |fields| == n && (forall i :: 0 <= i < n ==> SPACE !in fields[i])
    && record == JoinBefore(fields, path)
  }

  /** Space-free parts but for the last, which join to the text. */
  ghost predicate JoinTo(parts: seq<Bytes>, s: Bytes) {
    && parts != [] && JoinBefore(parts[..|parts| - 1], parts[|parts| - 1]) == s
    && forall i :: 0 <= i < |parts| - 1 ==> SPACE !in parts[i]
  }

  lemma JoinOne(s: Bytes)
    ensures JoinTo([s], s)
  {
    assert [s][..0] == [];
  }

  lemma JoinMore(field: Bytes, parts: seq<Bytes>, s: Bytes)
    requires JoinTo(parts, s) && SPACE !in field
    ensures JoinTo([field] + parts, field + [SPACE] + s)
  {
    var all := [field] + parts;
    var fields := all[..|all| - 1];
    assert fields[0] == field && fields[1..] == parts[..|parts| - 1];
    assert all[|all| - 1] == parts[|parts| - 1];
  }

  lemma {:induction false} SplitNRejoins(n: nat, s: Bytes)
    requires n >= 1
    ensures JoinTo(SplitN(n, SPACE, s), s)
  {
    var i := Find(SPACE, s);
    if n > 1 && i < |s| {
      var tail := s[i + 1..];
      SplitNRejoins(n - 1, tail);
      JoinMore(s[..i], SplitN(n - 1, SPACE, tail), tail);
      assert s == s[..i] + [SPACE] + tail;
    } else {
      JoinOne(s);
    }
  }

  /** A record is split into `n + 1` fields exactly when it is laid out so, and then in that one way. */
  lemma SplitIsLayout(record: Bytes, n: nat, fields: seq<Bytes>, path: Bytes)
    ensures LaidOut(record, n, fields, path) <==> |fields| == n && SplitN(n + 1, SPACE, record) == fields + [path]
  {
    if LaidOut(record, n, fields, path) {
      SplitNJoined(fields, path);
    } else if |fields| == n && SplitN(n + 1, SPACE, record) == fields + [path] {
      SplitNRejoins(n + 1, record);
      JoinIsLayout(record, n, fields, path);
    }
  }

  lemma JoinIsLayout(record: Bytes, n: nat, fields: seq<Bytes>, path: Bytes)
    requires |fields| == n && JoinTo(fields + [path], record)
    ensures LaidOut(record, n, fields, path)
  {
    var parts := fields + [path];
    assert parts[..n] == fields && parts[n] == path;
    assert forall i :: 0 <= i < n ==> parts[i] == fields[i];
  }

  lemma FullSplitIsLayout(record: Bytes, n: nat)
    requires |SplitN(n + 1, SPACE, record)| == n + 1
    ensures var parts := SplitN(n + 1, SPACE, record); LaidOut(record, n, parts[..n], parts[n])
  {
    var parts := SplitN(n + 1, SPACE, record);
    assert parts == parts[..n] + [parts[n]];
    SplitIsLayout(record, n, parts[..n], parts[n]);
  }

  /** How many fields stand before the path of a tracked entry. */
  function FieldsBefore(kind: Kind): nat {
    FieldsBetween(kind) + 2
  }

  /** The record says this entry. */
  ghost predicate Says(record: Bytes, next: Option<Bytes>, e: Entry) {
    if e.kind == Untracked || e.kind == Ignored then
      && |record| > 2 && record[0] == Tag(e.kind)
      && e == Entry(record[2..], None, Tag(e.kind), Tag(e.kind), e.kind)
    else
      && record != [] && record[0] == Tag(e.kind) && e.path != []
      && (e.kind == RenamedOrCopied <==> e.original.Some?)
      && (e.kind == RenamedOrCopied ==> e.original == next && next.value != [])
      && exists fields :: LaidOut(record, FieldsBefore(e.kind), fields, e.path) && fields[1] == [e.index, e.worktree]
  }

  /** A record parses to an entry exactly when it says that entry; so what says none is refused. */
  lemma ParsesIffItSays(record: Bytes, next: Option<Bytes>, e: Entry)
    requires record != []
    ensures ParseRecord(record, next) == Ok(e) <==> Says(record, next, e)
  {
    if Says(record, next, e) {
      SaysParses(record, next, e);
    }
    if ParseRecord(record, next) == Ok(e) {
      ParsesSays(record, next, e);
    }
  }

  lemma SaysParses(record: Bytes, next: Option<Bytes>, e: Entry)
    requires record != [] && Says(record, next, e)
    ensures ParseRecord(record, next) == Ok(e)
  {
    if e.kind != Untracked && e.kind != Ignored {
      var n := FieldsBefore(e.kind);
      var fields :| LaidOut(record, n, fields, e.path) && fields[1] == [e.index, e.worktree];
      SplitIsLayout(record, n, fields, e.path);
      var parts := fields + [e.path];
      assert parts[1] == fields[1] && parts[n] == e.path;
    }
  }

  lemma ParsesSays(record: Bytes, next: Option<Bytes>, e: Entry)
    requires record != [] && ParseRecord(record, next) == Ok(e)
    ensures Says(record, next, e)
  {
    if e.kind != Untracked && e.kind != Ignored {
      var n := FieldsBefore(e.kind);
      var parts := SplitN(n + 1, SPACE, record);
      assert |parts| == n + 1;
      FullSplitIsLayout(record, n);
      assert parts[..n][1] == parts[1] == [e.index, e.worktree];
    }
  }
}
