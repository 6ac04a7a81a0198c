/**
 * The `ldiftool` command: CSV rows to LDIF modify records (`writeLdif`) and
 * LDIF entries back to CSV records (`readLdif`, `writeCsv`). File handling and
 * the `encoding/csv` quoting rules are outside the model: CSV data is the
 * sequence of records `ReadAll` returns, and the LDIF output is one string.
 */
module LdifTool {
  import opened Wrappers
  import opened Text

  type Row = seq<string>

  /** One LDIF entry: attribute name to value, repeated values joined by "\n". */
  type Entry = map<string, string>

  datatype LdifError =
    | ColumnNotFound(column: string)
      /** `csvData[0]` on a CSV file without records: an index-out-of-range panic. */
    | EmptyCsv
      /** An attribute line before the first `dn:` line writes to a nil map: a panic. */
    | AttributeBeforeDn(line: nat)

  /** All records have the width of the first, as `csv.Reader.ReadAll` enforces. */
  predicate Rectangular(csv: seq<Row>) {
    forall i :: 0 <= i < |csv| ==> |csv[i]| == |csv[0]|
  }

  // ---------------------------------------------------------------------------
  // Lookups
  // ---------------------------------------------------------------------------

  /** `stringInSlice`. */
  function StringInSlice(str: string, slice: seq<string>): (found: bool)
    ensures found <==> str in slice
  {
    if slice == [] then false
    else
      assert slice == [slice[0]] + slice[1..];
      slice[0] == str || StringInSlice(str, slice[1..])
  }

  /** The loop of `getColumnIndex`: the first position of `name`, or -1. */
  function IndexIn(header: Row, name: string): (i: int)
    ensures -1 <= i < |header|
    ensures i == -1 <==> name !in header
    ensures 0 <= i ==> header[i] == name && name !in header[..i]
  {
    if header == [] then -1
    else if header[0] == name then 0
    else
      var j := IndexIn(header[1..], name);
      IndexInStep(header, name, j);
      if j < 0 then -1 else j + 1
  }

  lemma IndexInStep(header: Row, name: string, j: int)
    requires header != [] && header[0] != name
    requires -1 <= j < |header| - 1
    requires j == -1 <==> name !in header[1..]
    requires 0 <= j ==> header[1..][j] == name && name !in header[1..][..j]
    ensures j == -1 <==> name !in header
    ensures 0 <= j ==> header[j + 1] == name && name !in header[..j + 1]
  {
    assert header == [header[0]] + header[1..];
    if j >= 0 {
      assert header[..j + 1] == [header[0]] + header[1..][..j];
    }
  }

  /** `getColumnIndex`: looks `name` up in the header record. */
  function GetColumnIndex(csvData: seq<Row>, name: string): (r: Result<nat, LdifError>)
    ensures csvData == [] ==> r == Err(EmptyCsv)
    ensures csvData != [] && name !in csvData[0] ==> r == Err(ColumnNotFound(name))
    ensures r.Ok? ==> csvData != [] && r.value < |csvData[0]| && csvData[0][r.value] == name
                      && name !in csvData[0][..r.value]
    ensures csvData != [] && name in csvData[0] ==> r.Ok?
  {
    if csvData == [] then Err(EmptyCsv)
    else
      var i := IndexIn(csvData[0], name);
      if i < 0 then Err(ColumnNotFound(name)) else Ok(i)
  }

  // ---------------------------------------------------------------------------
  // CSV to LDIF
  // ---------------------------------------------------------------------------

  /** The change record `writeLdif` writes for one row. */
  function Block(dn: string, attribute: string, value: string, changeType: string): string {
    ("dn: " + dn + "\n")
    + "changetype: modify\n"
    + (changeType + ": " + attribute + "\n")
    + (if changeType != "delete" then attribute + ": " + value + "\n" else "")
    + "\n"
  }

  lemma AppendAssociative(o: string, a: string, b: string, c: string, d: string, e: string)
    ensures o + a + b + c + d + e == o + (a + b + c + d + e)
  {
  }

  predicate HasColumns(rows: seq<Row>, dnIndex: nat, attributeIndex: nat) {
    forall r :: 0 <= r < |rows| ==> dnIndex < |rows[r]| && attributeIndex < |rows[r]|
  }

  /** The block of one row: nothing when its attribute cell is empty. */
  function RowBlock(row: Row, dnIndex: nat, attributeIndex: nat, attribute: string, changeType: string): string
    requires dnIndex < |row| && attributeIndex < |row|
  {
    if row[attributeIndex] == "" then ""
    else Block(row[dnIndex], attribute, row[attributeIndex], changeType)
  }

  /** The LDIF text for the data rows, in order. */
  function Blocks(rows: seq<Row>, dnIndex: nat, attributeIndex: nat, attribute: string, changeType: string): string
    requires HasColumns(rows, dnIndex, attributeIndex)
  {
    if rows == [] then ""
    else Blocks(rows[..|rows| - 1], dnIndex, attributeIndex, attribute, changeType)
         + RowBlock(rows[|rows| - 1], dnIndex, attributeIndex, attribute, changeType)
  }

  /**
   * `writeLdif`: looks up the `dn` column, then the attribute column, and only
   * then writes one change record per data row with a non-empty attribute cell.
   */
  method WriteLdif(csvData: seq<Row>, attributeName: string, changeType: string)
    returns (r: Result<string, LdifError>)
    requires Rectangular(csvData)
    ensures csvData == [] ==> r == Err(EmptyCsv)
    ensures csvData != [] && "dn" !in csvData[0] ==> r == Err(ColumnNotFound("dn"))
    ensures csvData != [] && "dn" in csvData[0] && attributeName !in csvData[0]
            ==> r == Err(ColumnNotFound(attributeName))
    ensures csvData != [] && "dn" in csvData[0] && attributeName in csvData[0] ==>
              var dnIndex := IndexIn(csvData[0], "dn");
              var attributeIndex := IndexIn(csvData[0], attributeName);
              HasColumns(csvData[1..], dnIndex, attributeIndex)
              && r == Ok(Blocks(csvData[1..], dnIndex, attributeIndex, attributeName, changeType))
  {
    var dn := GetColumnIndex(csvData, "dn");
    if dn.Err? {
      return Err(dn.error);
    }
    var attr := GetColumnIndex(csvData, attributeName);
    if attr.Err? {
      return Err(attr.error);
    }
    var dnIndex, attributeIndex := dn.value, attr.value;
    var rows := csvData[1..];
    assert HasColumns(rows, dnIndex, attributeIndex) by {
      forall k | 0 <= k < |rows| ensures dnIndex < |rows[k]| && attributeIndex < |rows[k]| {
        assert rows[k] == csvData[k + 1];
      }
    }
    var out := "";
    var k := 0;
    while k < |rows|
      invariant 0 <= k <= |rows|
      invariant out == Blocks(rows[..k], dnIndex, attributeIndex, attributeName, changeType)
    {
      var row := rows[k];
      ghost var before := out;
      if row[attributeIndex] != "" {
        var valueLine := "";
        out := out + ("dn: " + row[dnIndex] + "\n");
        out := out + "changetype: modify\n";
        out := out + (changeType + ": " + attributeName + "\n");
        if changeType != "delete" {
          valueLine := attributeName + ": " + row[attributeIndex] + "\n";
          out := out + valueLine;
        } else {
          assert out + valueLine == out;
        }
        out := out + "\n";
        AppendAssociative(before, "dn: " + row[dnIndex] + "\n", "changetype: modify\n",
          changeType + ": " + attributeName + "\n", valueLine, "\n");
      }
      assert rows[..k + 1][..k] == rows[..k];
      k := k + 1;
    }
    assert rows[..k] == rows;
    return Ok(out);
  }

  // ---------------------------------------------------------------------------
  // LDIF to entries
  // ---------------------------------------------------------------------------

  /** `bufio.ScanLines`: a trailing carriage return is dropped from each line. */
  function DropCR(line: string): string {
    if line != [] && line[|line| - 1] == '\r' then line[..|line| - 1] else line
  }

  /**
   * The lines `bufio.Scanner` yields: split at "\n", the final unterminated
   * part counts as a line when it is non-empty.
   */
  function ScanLines(text: string): seq<string>
    decreases |text|
  {
    if text == [] then []
    else
      var i := IndexOf(text, '\n');
      if i < 0 then [DropCR(text)]
      else [DropCR(text[..i])] + ScanLines(text[i + 1..])
  }

  /** No scanned line holds a line feed. */
  lemma {:induction false} ScanLinesNoNewline(text: string)
    ensures NoneHolds(ScanLines(text), '\n')
    decreases |text|
  {
    if text != [] {
      IndexOfFirst(text, '\n');
      var i := IndexOf(text, '\n');
      if i < 0 {
        DropCRKeeps(text, '\n');
      } else {
        DropCRKeeps(text[..i], '\n');
        ScanLinesNoNewline(text[i + 1..]);
        ConsNoneHolds(DropCR(text[..i]), ScanLines(text[i + 1..]), '\n');
      }
    }
  }

  lemma DropCRKeeps(line: string, c: char)
    requires c !in line
    ensures c !in DropCR(line)
  {
  }

  /** A line ended by a line feed is scanned as one line. */
  lemma ScanLinesCons(line: string, rest: string)
    requires '\n' !in line
    ensures ScanLines(line + "\n" + rest) == [DropCR(line)] + ScanLines(rest)
  {
    var t := line + "\n" + rest;
    assert t[..|line|] == line;
    assert t[|line|] == '\n';
    IndexOfAt(t, '\n', |line|);
    assert t[|line| + 1..] == rest;
  }

  predicate IsDnLine(line: string) {
    HasPrefix(line, "dn:")
  }

  /**
   * `strings.SplitN(line, ":", 2)` when it gives two parts, both passed
   * through `strings.TrimSpace`: the attribute name and its value.
   */
  function SplitAttribute(line: string): Option<(string, string)> {
    var i := IndexOf(line, ':');
    if i < 0 then None else Some((TrimSpace(line[..i]), TrimSpace(line[i + 1..])))
  }

  /** A value for `attr`: appended after "\n" when the entry has one already. */
  function AddValue(entry: Entry, attr: string, value: string): Entry {
    if attr in entry then entry[attr := entry[attr] + "\n" + value] else entry[attr := value]
  }

  /** The entry a `dn:` line opens. */
  function NewEntry(line: string): Entry
    requires IsDnLine(line)
  {
    map["dn" := TrimSpace(line[3..])]
  }

  /**
   * Where `readLdif` stands after some lines: the entries closed so far, the
   * open entry (`nil` before the first `dn:` line) and the number of lines
   * read; or the panic at line `line`.
   */
  datatype ReadState =
    | Reading(entries: seq<Entry>, current: Option<Entry>, read: nat)
    | Failed(line: nat)

  const Start: ReadState := Reading([], None, 0)

  /** One iteration of the scanner loop of `readLdif`. */
  function Step(st: ReadState, line: string): ReadState {
    match st
    case Failed(n) => Failed(n)
    case Reading(entries, current, n) =>
      if IsDnLine(line) then
        Reading(entries + Closed(current), Some(NewEntry(line)), n + 1)
      else
        match SplitAttribute(line)
        case None => Reading(entries, current, n + 1)
        case Some((attr, value)) =>
          if current.None? then Failed(n)
          else Reading(entries, Some(AddValue(current.value, attr, value)), n + 1)
  }

  /** The open entry as the list of entries it adds once closed. */
  function Closed(current: Option<Entry>): seq<Entry> {
    if current.Some? then [current.value] else []
  }

  /** The state after `lines`, starting from `st`. */
  function Run(st: ReadState, lines: seq<string>): ReadState
    decreases |lines|
  {
    if lines == [] then st
    else Step(Run(st, lines[..|lines| - 1]), lines[|lines| - 1])
  }

  /** The end of `readLdif`: the open entry is appended. */
  function Finish(st: ReadState): Result<seq<Entry>, LdifError> {
    match st
    case Failed(n) => Err(AttributeBeforeDn(n))
    case Reading(entries, current, _) => Ok(entries + Closed(current))
  }

  /** What `readLdif` returns for the scanned lines of a file. */
  function ParseLdif(lines: seq<string>): Result<seq<Entry>, LdifError> {
    Finish(Run(Start, lines))
  }

  lemma {:induction false} RunAppend(st: ReadState, a: seq<string>, b: seq<string>)
    ensures Run(st, a + b) == Run(Run(st, a), b)
    decreases |b|
  {
    if b == [] {
      assert a + b == a;
    } else {
      var c := a + b;
      var b' := b[..|b| - 1];
      assert c[..|c| - 1] == a + b';
      assert c[|c| - 1] == b[|b| - 1];
      RunAppend(st, a, b');
      var mid := Run(st, a + b');
      assert Run(st, c) == Step(mid, b[|b| - 1]);
      assert Run(Run(st, a), b) == Step(Run(Run(st, a), b'), b[|b| - 1]);
    }
  }

  lemma {:induction false} RunFailed(n: nat, lines: seq<string>)
    ensures Run(Failed(n), lines) == Failed(n)
    decreases |lines|
  {
    if lines != [] {
      RunFailed(n, lines[..|lines| - 1]);
    }
  }

  lemma TakeDrop<T>(s: seq<T>, i: nat)
    requires i <= |s|
    ensures s[..i] + s[i..] == s
  {
  }

  lemma RunSnoc(st: ReadState, lines: seq<string>, i: nat)
    requires i < |lines|
    ensures Run(st, lines[..i + 1]) == Step(Run(st, lines[..i]), lines[i])
  {
    assert lines[..i + 1][..i] == lines[..i];
  }

  lemma StepAtDn(entries: seq<Entry>, current: Option<Entry>, n: nat, line: string)
    requires HasPrefix(line, "dn:")
    ensures Step(Reading(entries, current, n), line)
         == Reading(entries + Closed(current), Some(map["dn" := TrimSpace(line[3..])]), n + 1)
  {
  }

  lemma StepAtAttribute(entries: seq<Entry>, entry: Entry, n: nat, line: string, attr: string, value: string)
    requires !HasPrefix(line, "dn:") && SplitAttribute(line) == Some((attr, value))
    ensures Step(Reading(entries, Some(entry), n), line)
         == Reading(entries, Some(AddValue(entry, attr, value)), n + 1)
  {
    var st := Step(Reading(entries, Some(entry), n), line);
    assert st.Reading? && st.entries == entries && st.read == n + 1;
    assert st.current == Some(AddValue(entry, attr, value));
  }

  lemma StepAtOther(entries: seq<Entry>, current: Option<Entry>, n: nat, line: string)
    requires !HasPrefix(line, "dn:") && SplitAttribute(line).None?
    ensures Step(Reading(entries, current, n), line) == Reading(entries, current, n + 1)
  {
  }

  lemma AppendClosed(entries: seq<Entry>, current: Option<Entry>)
    ensures entries + Closed(current) == if current.Some? then entries + [current.value] else entries
  {
    if current.None? {
      assert entries + [] == entries;
    }
  }

  /** An attribute line while no entry is open fails, whatever follows it. */
  lemma RunFailsAt(lines: seq<string>, i: nat, entries: seq<Entry>)
    requires i < |lines| && Run(Start, lines[..i]) == Reading(entries, None, i)
    requires !IsDnLine(lines[i]) && SplitAttribute(lines[i]).Some?
    ensures Run(Start, lines) == Failed(i)
  {
    RunSnoc(Start, lines, i);
    RunAppend(Start, lines[..i + 1], lines[i + 1..]);
    TakeDrop(lines, i + 1);
    RunFailed(i, lines[i + 1..]);
  }

  /** `readLdif` over the scanned lines. */
  method ReadLdif(lines: seq<string>) returns (r: Result<seq<Entry>, LdifError>)
    ensures r == ParseLdif(lines)
  {
    var entries: seq<Entry> := [];
    var current: Option<Entry> := None;
    var i := 0;
    while i < |lines|
      invariant 0 <= i <= |lines|
      invariant Run(Start, lines[..i]) == Reading(entries, current, i)
    {
      var line := lines[i];
      RunSnoc(Start, lines, i);
      if HasPrefix(line, "dn:") {
        StepAtDn(entries, current, i, line);
        AppendClosed(entries, current);
        if current.Some? {
          entries := entries + [current.value];
        }
        current := Some(map["dn" := TrimSpace(line[3..])]);
      } else {
        var split := SplitAttribute(line);
        if split.Some? {
          var (attr, value) := split.value;
          if current.None? {
            RunFailsAt(lines, i, entries);
            return Err(AttributeBeforeDn(i));
          }
          var entry := current.value;
          StepAtAttribute(entries, entry, i, line, attr, value);
          if attr in entry {
            entry := entry[attr := entry[attr] + "\n" + value];
          } else {
            entry := entry[attr := value];
          }
          current := Some(entry);
        } else {
          StepAtOther(entries, current, i, line);
        }
      }
      i := i + 1;
    }
    assert lines[..i] == lines;
    AppendClosed(entries, current);
    if current.Some? {
      entries := entries + [current.value];
    }
    r := Ok(entries);
  }

  // ---------------------------------------------------------------------------
  // Entries to CSV records
  // ---------------------------------------------------------------------------

  /** Every key of some entry. */
  function KeysOf(entries: seq<Entry>): set<string>
    decreases |entries|
  {
    if entries == [] then {}
    else KeysOf(entries[..|entries| - 1]) + entries[|entries| - 1].Keys
  }

  /** A key is collected exactly when some entry has it. */
  lemma {:induction false} KeysOfHas(entries: seq<Entry>, key: string)
    ensures key in KeysOf(entries) <==> exists i :: 0 <= i < |entries| && key in entries[i]
    decreases |entries|
  {
    if entries != [] {
      var p := entries[..|entries| - 1];
      KeysOfHas(p, key);
      assert forall i :: 0 <= i < |p| ==> p[i] == entries[i];
    }
  }

  /** The position of the first entry that has `key`. */
  function FirstWith(entries: seq<Entry>, key: string): (i: nat)
    requires key in KeysOf(entries)
    ensures i < |entries|
    decreases |entries|
  {
    var p := entries[..|entries| - 1];
    if key in KeysOf(p) then FirstWith(p, key) else |entries| - 1
  }

  lemma {:induction false} FirstWithIsFirst(entries: seq<Entry>, key: string)
    requires key in KeysOf(entries)
    ensures key in entries[FirstWith(entries, key)]
    ensures forall i :: 0 <= i < FirstWith(entries, key) ==> key !in entries[i]
    decreases |entries|
  {
    var p := entries[..|entries| - 1];
    if key in KeysOf(p) {
      FirstWithIsFirst(p, key);
      assert entries[FirstWith(entries, key)] == p[FirstWith(p, key)];
      assert forall i :: 0 <= i < |p| ==> p[i] == entries[i];
    } else {
      KeysOfHas(p, key);
      assert forall i :: 0 <= i < |p| ==> p[i] == entries[i];
    }
  }

  /**
   * Keys appear in the order of the first entry that has them; keys that
   * first appear in the same entry come in that map's iteration order.
   */
  predicate FirstSeenOrder(header: seq<string>, entries: seq<Entry>) {
    (forall k :: k in header ==> k in KeysOf(entries))
    && forall a, b :: 0 <= a < b < |header| ==> FirstWith(entries, header[a]) <= FirstWith(entries, header[b])
  }

  lemma FirstWithExtend(entries: seq<Entry>, i: nat, key: string)
    requires i < |entries| && key in KeysOf(entries[..i])
    ensures key in KeysOf(entries[..i + 1])
    ensures FirstWith(entries[..i + 1], key) == FirstWith(entries[..i], key)
  {
    assert entries[..i + 1][..i] == entries[..i];
  }

  lemma FirstSeenExtend(header: seq<string>, entries: seq<Entry>, i: nat)
    requires i < |entries| && FirstSeenOrder(header, entries[..i])
    ensures FirstSeenOrder(header, entries[..i + 1])
  {
    forall k | k in header ensures k in KeysOf(entries[..i + 1]) {
      FirstWithExtend(entries, i, k);
    }
    forall a | 0 <= a < |header| ensures header[a] in KeysOf(entries[..i + 1]) {
      assert header[a] in header;
    }
    forall a, b | 0 <= a < b < |header|
      ensures FirstWith(entries[..i + 1], header[a]) <= FirstWith(entries[..i + 1], header[b])
    {
      FirstWithExtend(entries, i, header[a]);
      FirstWithExtend(entries, i, header[b]);
    }
  }

  /** A key new in entry `i` comes after every key of earlier entries. */
  lemma FirstSeenSnoc(header: seq<string>, entries: seq<Entry>, i: nat, key: string)
    requires i < |entries| && FirstSeenOrder(header, entries[..i + 1])
    requires key in entries[i] && key !in KeysOf(entries[..i])
    ensures FirstSeenOrder(header + [key], entries[..i + 1])
  {
    var q := entries[..i + 1];
    assert q[..i] == entries[..i];
    assert FirstWith(q, key) == i;
    var h := header + [key];
    forall a, b | 0 <= a < b < |h| ensures FirstWith(q, h[a]) <= FirstWith(q, h[b]) {
      assert h[a] == header[a];
      if b < |header| {
        assert h[b] == header[b];
      }
    }
  }

  predicate NoDuplicates(s: seq<string>) {
    forall i, j :: 0 <= i < j < |s| ==> s[i] != s[j]
  }

  /** `header` lists the members of `keys`, each once. */
  predicate Lists(header: seq<string>, keys: set<string>) {
    NoDuplicates(header)
    && (forall k :: k in header ==> k in keys)
    && (forall k :: k in keys ==> k in header)
  }

  lemma ListsSnoc(header: seq<string>, keys: set<string>, key: string)
    requires Lists(header, keys) && key !in keys
    ensures Lists(header + [key], keys + {key})
  {
    var h := header + [key];
    forall i, j | 0 <= i < j < |h| ensures h[i] != h[j] {
      assert h[i] == header[i];
      if j < |header| {
        assert h[j] == header[j];
      }
    }
  }

  /** A list without duplicates is as long as the set it lists. */
  lemma {:induction false} ListsSize(header: seq<string>, keys: set<string>)
    requires Lists(header, keys)
    ensures |header| == |keys|
    decreases |header|
  {
    if header != [] {
      var p := header[..|header| - 1];
      var x := header[|header| - 1];
      assert header == p + [x];
      forall i | 0 <= i < |p| ensures p[i] != x {
        assert p[i] == header[i];
      }
      assert Lists(p, keys - {x}) by {
        forall i, j | 0 <= i < j < |p| ensures p[i] != p[j] {
          assert p[i] == header[i] && p[j] == header[j];
        }
      }
      ListsSize(p, keys - {x});
    }
  }

  /**
   * The header loop of `writeCsv`: every key of every entry, entry by entry,
   * in the (unspecified) iteration order of each map, skipping keys already
   * listed.
   */
  method CollectHeader(entries: seq<Entry>) returns (header: seq<string>)
    ensures Lists(header, KeysOf(entries))
    ensures FirstSeenOrder(header, entries)
  {
    header := [];
    var i := 0;
    while i < |entries|
      invariant 0 <= i <= |entries|
      invariant Lists(header, KeysOf(entries[..i]))
      invariant FirstSeenOrder(header, entries[..i])
    {
      FirstSeenExtend(header, entries, i);
      header := AddKeys(header, entries, i);
      i := i + 1;
    }
    assert entries[..i] == entries;
  }

  /** The inner loop of the header loop: the keys of entry `i` not yet listed. */
  method AddKeys(header: seq<string>, entries: seq<Entry>, i: nat) returns (extended: seq<string>)
    requires i < |entries|
    requires Lists(header, KeysOf(entries[..i])) && FirstSeenOrder(header, entries[..i + 1])
    ensures Lists(extended, KeysOf(entries[..i + 1])) && FirstSeenOrder(extended, entries[..i + 1])
  {
    var entry := entries[i];
    ghost var before := KeysOf(entries[..i]);
    ghost var done: set<string> := {};
    var keys := entry.Keys;
    extended := header;
    while keys != {}
      invariant keys + done == entry.Keys && keys !! done
      invariant Lists(extended, before + done)
      invariant FirstSeenOrder(extended, entries[..i + 1])
      decreases keys
    {
      var key :| key in keys;
      if !StringInSlice(key, extended) {
        ListsSnoc(extended, before + done, key);
        FirstSeenSnoc(extended, entries, i, key);
        extended := extended + [key];
      }
      keys := keys - {key};
      done := done + {key};
    }
    assert entries[..i + 1][..i] == entries[..i];
  }

  function Bracket(value: string): string {
    "[" + value + "]"
  }

  /** Each value wrapped in brackets, in order. */
  function Bracketed(values: seq<string>): (r: seq<string>)
    ensures |r| == |values|
    decreases |values|
  {
    if values == [] then []
    else Bracketed(values[..|values| - 1]) + [Bracket(values[|values| - 1])]
  }

  lemma {:induction false} BracketedEach(values: seq<string>)
    ensures forall k :: 0 <= k < |values| ==> Bracketed(values)[k] == Bracket(values[k])
    decreases |values|
  {
    if values != [] {
      BracketedEach(values[..|values| - 1]);
    }
  }

  /** The cell `writeCsv` writes for `key` of `entry`. */
  function Cell(entry: Entry, key: string): string {
    if key !in entry then ""
    else if '\n' in entry[key] then Join(Bracketed(Split(entry[key], '\n')), "")
    else entry[key]
  }

  /**
   * A cell lists the values of a repeated attribute, each in brackets, and a
   * single value as it is.
   */
  lemma CellOfValues(entry: Entry, key: string, values: seq<string>)
    requires |values| >= 1 && NoneHolds(values, '\n')
    requires key in entry && entry[key] == Join(values, "\n")
    ensures |values| == 1 ==> Cell(entry, key) == values[0]
    ensures |values| > 1 ==> Cell(entry, key) == Join(Bracketed(values), "")
  {
    SplitJoin(values, '\n');
    if |values| > 1 {
      JoinHasSeparator(values, '\n');
    }
  }

  /** `row` holds the cell of every header key of `entry`, in header order. */
  predicate RowFor(row: Row, entry: Entry, header: seq<string>) {
    |row| == |header| && forall j :: 0 <= j < |row| ==> row[j] == Cell(entry, header[j])
  }

  /** One cell of the row loop of `writeCsv`. */
  method EncodeCell(entry: Entry, key: string) returns (cell: string)
    ensures cell == Cell(entry, key)
  {
    if key !in entry {
      return "";
    }
    var value := entry[key];
    if '\n' !in value {
      return value;
    }
    var values := Split(value, '\n');
    var encapsulated: seq<string> := [];
    var k := 0;
    while k < |values|
      invariant 0 <= k <= |values|
      invariant encapsulated == Bracketed(values[..k])
    {
      encapsulated := encapsulated + ["[" + values[k] + "]"];
      assert values[..k + 1][..k] == values[..k];
      k := k + 1;
    }
    assert values[..k] == values;
    cell := Join(encapsulated, "");
  }

  /**
   * `writeCsv` as the records it hands to the CSV writer: the header, then one
   * row per entry with a cell for every header key.
   */
  method WriteCsv(entries: seq<Entry>) returns (records: seq<Row>)
    ensures |records| == |entries| + 1
    ensures Lists(records[0], KeysOf(entries))
    ensures FirstSeenOrder(records[0], entries)
    ensures forall i :: 1 <= i < |records| ==> RowFor(records[i], entries[i - 1], records[0])
  {
    var header := CollectHeader(entries);
    records := [header];
    var i := 0;
    while i < |entries|
      invariant 0 <= i <= |entries|
      invariant |records| == i + 1 && records[0] == header
      invariant forall m :: 1 <= m < |records| ==> RowFor(records[m], entries[m - 1], header)
    {
      var entry := entries[i];
      var row: Row := [];
      var j := 0;
      while j < |header|
        invariant 0 <= j <= |header|
        invariant |row| == j
        invariant forall n :: 0 <= n < j ==> row[n] == Cell(entry, header[n])
      {
        var cell := EncodeCell(entry, header[j]);
        row := row + [cell];
        j := j + 1;
      }
      records := records + [row];
      i := i + 1;
    }
  }
}
