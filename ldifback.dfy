/**
 * What `writeLdif` writes, read back by `readLdif`: every change record opens
 * one entry, in row order, whose `dn` is the row's `dn` cell. This holds for
 * cells that stay on one line and for attribute and change type names that
 * are plain LDIF attribute types other than `dn`.
 */
module LdifBack {
  import opened Wrappers
  import opened Text
  import opened LdifTool

  /** An LDIF attribute type: letters, digits and `-`, not empty. */
  predicate AttributeType(s: string) {
    s != [] && forall k :: 0 <= k < |s| ==> ('a' <= s[k] <= 'z' || 'A' <= s[k] <= 'Z' || '0' <= s[k] <= '9' || s[k] == '-')
  }

  /** A cell that the scanner reads back as it is: no line feed, no trailing carriage return. */
  predicate OneLine(s: string) {
    '\n' !in s && (s != [] ==> s[|s| - 1] != '\r')
  }

  /** The `dn` and attribute cells of every row can be read back. */
  predicate PlainCells(rows: seq<Row>, dnIndex: nat, attributeIndex: nat)
    requires HasColumns(rows, dnIndex, attributeIndex)
  {
    forall r :: 0 <= r < |rows| ==>
      OneLine(rows[r][dnIndex]) && Trimmed(rows[r][dnIndex]) && OneLine(rows[r][attributeIndex])
  }

  /** The `dn` cells of the rows whose attribute cell is not empty, in order. */
  function Dns(rows: seq<Row>, dnIndex: nat, attributeIndex: nat): seq<string>
    requires HasColumns(rows, dnIndex, attributeIndex)
  {
    if rows == [] then []
    else
      var last := rows[|rows| - 1];
      Dns(rows[..|rows| - 1], dnIndex, attributeIndex)
      + (if last[attributeIndex] == "" then [] else [last[dnIndex]])
  }

  /** The lines of one change record. */
  function BlockLines(dn: string, attribute: string, value: string, changeType: string): seq<string> {
    ["dn: " + dn, "changetype: modify", changeType + ": " + attribute]
    + (if changeType != "delete" then [attribute + ": " + value] else [])
    + [""]
  }

  function RowLines(row: Row, dnIndex: nat, attributeIndex: nat, attribute: string, changeType: string): seq<string>
    requires dnIndex < |row| && attributeIndex < |row|
  {
    if row[attributeIndex] == "" then []
    else BlockLines(row[dnIndex], attribute, row[attributeIndex], changeType)
  }

  function AllLines(rows: seq<Row>, dnIndex: nat, attributeIndex: nat, attribute: string, changeType: string): seq<string>
    requires HasColumns(rows, dnIndex, attributeIndex)
  {
    if rows == [] then []
    else AllLines(rows[..|rows| - 1], dnIndex, attributeIndex, attribute, changeType)
         + RowLines(rows[|rows| - 1], dnIndex, attributeIndex, attribute, changeType)
  }

  /** Lines, each ended by a line feed. */
  function Terminated(lines: seq<string>): string {
    if lines == [] then "" else lines[0] + "\n" + Terminated(lines[1..])
  }

  /** Every line the scanner would give back as it is. */
  predicate ScansAsItself(lines: seq<string>) {
    forall k :: 0 <= k < |lines| ==> '\n' !in lines[k] && DropCR(lines[k]) == lines[k]
  }

  /** Terminated lines, followed by any text, scan as those lines. */
  lemma {:induction false} TerminatedScan(lines: seq<string>, rest: string)
    requires ScansAsItself(lines)
    ensures ScanLines(Terminated(lines) + rest) == lines + ScanLines(rest)
    decreases |lines|
  {
    if lines == [] {
      EmptyPrefix(Terminated(lines), rest);
      EmptyPrefix(lines, ScanLines(rest));
    } else {
      var head, tail := lines[0], lines[1..];
      TerminatedFirst(lines, rest);
      TerminatedScan(tail, rest);
      ScanCons(Terminated(lines) + rest, head, Terminated(tail) + rest, tail + ScanLines(rest));
      ConsAppend(lines, ScanLines(rest));
    }
  }

  lemma EmptyPrefix<T>(a: seq<T>, b: seq<T>)
    requires a == []
    ensures a + b == b
  {
  }

  lemma ConsAppend(lines: seq<string>, more: seq<string>)
    requires lines != []
    ensures lines + more == [lines[0]] + (lines[1..] + more)
  {
    assert lines == [lines[0]] + lines[1..];
  }

  /** The first of terminated lines, and the rest. */
  lemma TerminatedFirst(lines: seq<string>, rest: string)
    requires ScansAsItself(lines) && lines != []
    ensures ScansAsItself(lines[1..])
    ensures '\n' !in lines[0] && DropCR(lines[0]) == lines[0]
    ensures Terminated(lines) + rest == lines[0] + "\n" + (Terminated(lines[1..]) + rest)
  {
    var tail := lines[1..];
    forall k | 0 <= k < |tail| ensures tail[k] == lines[k + 1] { }
    AppendLine(lines[0], Terminated(tail), rest);
  }

  lemma AppendLine(head: string, t: string, rest: string)
    ensures head + "\n" + t + rest == head + "\n" + (t + rest)
  {
  }

  /** The scan of a text that starts with a line, given the scan of what follows it. */
  lemma ScanCons(text: string, head: string, after: string, tl: seq<string>)
    requires '\n' !in head && DropCR(head) == head
    requires text == head + "\n" + after && ScanLines(after) == tl
    ensures ScanLines(text) == [head] + tl
  {
    ScanLinesCons(head, after);
  }

  lemma TerminatedCons(x: string, rest: seq<string>)
    ensures Terminated([x] + rest) == x + "\n" + Terminated(rest)
  {
    assert ([x] + rest)[1..] == rest;
  }

  /** A change record is its lines, each ended by a line feed. */
  lemma BlockTerminated(dn: string, attribute: string, value: string, changeType: string)
    ensures Block(dn, attribute, value, changeType) == Terminated(BlockLines(dn, attribute, value, changeType))
  {
    var l1, l2, l3 := "dn: " + dn, "changetype: modify", changeType + ": " + attribute;
    var opt := if changeType != "delete" then [attribute + ": " + value] else [];
    var valueText := if changeType != "delete" then attribute + ": " + value + "\n" else "";
    assert Terminated(opt + [""]) == valueText + "\n" by {
      TerminatedCons("", []);
      if changeType != "delete" {
        TerminatedCons(attribute + ": " + value, [""]);
      } else {
        EmptyPrefix(opt, [""]);
      }
    }
    assert BlockLines(dn, attribute, value, changeType) == [l1] + ([l2] + ([l3] + (opt + [""])));
    TerminatedCons(l3, opt + [""]);
    TerminatedCons(l2, [l3] + (opt + [""]));
    TerminatedCons(l1, [l2] + ([l3] + (opt + [""])));
    assert l2 + "\n" == "changetype: modify\n";
    Assoc5(l1 + "\n", "changetype: modify\n", l3 + "\n", valueText, "\n");
  }

  lemma Assoc5<T>(a: seq<T>, b: seq<T>, c: seq<T>, d: seq<T>, e: seq<T>)
    ensures a + b + c + d + e == a + (b + (c + (d + e)))
  {
  }

  /** A change record of one-line cells scans as its lines. */
  lemma BlockScans(dn: string, attribute: string, value: string, changeType: string, rest: string)
    requires OneLine(dn) && OneLine(value) && value != []
    requires AttributeType(attribute) && AttributeType(changeType)
    ensures ScanLines(Block(dn, attribute, value, changeType) + rest)
            == BlockLines(dn, attribute, value, changeType) + ScanLines(rest)
  {
    var lines := BlockLines(dn, attribute, value, changeType);
    assert ScansAsItself(lines) by {
      forall k | 0 <= k < |lines| ensures '\n' !in lines[k] && DropCR(lines[k]) == lines[k] {
        var l := lines[k];
        assert l != [] ==> l[|l| - 1] != '\r';
      }
    }
    BlockTerminated(dn, attribute, value, changeType);
    TerminatedScan(lines, rest);
  }

  /** The whole output, followed by any text, scans as the lines of its records. */
  lemma {:induction false} BlocksScan(rows: seq<Row>, dnIndex: nat, attributeIndex: nat, attribute: string, changeType: string, rest: string)
    requires HasColumns(rows, dnIndex, attributeIndex) && PlainCells(rows, dnIndex, attributeIndex)
    requires AttributeType(attribute) && AttributeType(changeType)
    ensures ScanLines(Blocks(rows, dnIndex, attributeIndex, attribute, changeType) + rest)
            == AllLines(rows, dnIndex, attributeIndex, attribute, changeType) + ScanLines(rest)
    decreases |rows|
  {
    if rows == [] {
      EmptyPrefix(Blocks(rows, dnIndex, attributeIndex, attribute, changeType), rest);
      EmptyPrefix(AllLines(rows, dnIndex, attributeIndex, attribute, changeType), ScanLines(rest));
    } else {
      var init, last := rows[..|rows| - 1], rows[|rows| - 1];
      var block := RowBlock(last, dnIndex, attributeIndex, attribute, changeType);
      var lines := RowLines(last, dnIndex, attributeIndex, attribute, changeType);
      assert HasColumns(init, dnIndex, attributeIndex) && PlainCells(init, dnIndex, attributeIndex) by {
        forall r | 0 <= r < |init| ensures init[r] == rows[r] { }
      }
      assert ScanLines(block + rest) == lines + ScanLines(rest) by {
        if last[attributeIndex] != "" {
          BlockScans(last[dnIndex], attribute, last[attributeIndex], changeType, rest);
        } else {
          assert block + rest == rest;
        }
      }
      BlocksScan(init, dnIndex, attributeIndex, attribute, changeType, block + rest);
      ScanCompose(Blocks(init, dnIndex, attributeIndex, attribute, changeType), block, rest,
                  AllLines(init, dnIndex, attributeIndex, attribute, changeType), lines);
    }
  }

  /** Scans of consecutive pieces of text concatenate. */
  lemma ScanCompose(a: string, b: string, rest: string, la: seq<string>, lb: seq<string>)
    requires ScanLines(a + (b + rest)) == la + ScanLines(b + rest)
    requires ScanLines(b + rest) == lb + ScanLines(rest)
    ensures ScanLines(a + b + rest) == la + lb + ScanLines(rest)
  {
    assert a + b + rest == a + (b + rest);
  }

  /** The `dn` value of every entry, position by position. */
  predicate HoldsDns(entries: seq<Entry>, dns: seq<string>) {
    |entries| == |dns| && forall k :: 0 <= k < |entries| ==> "dn" in entries[k] && entries[k]["dn"] == dns[k]
  }

  /** A line that leaves the open entry's `dn` alone: blank, or an attribute other than `dn`. */
  predicate KeepsDn(line: string) {
    line == "" || (!IsDnLine(line) && IndexOf(line, ':') >= 0 && TrimSpace(line[..IndexOf(line, ':')]) != "dn")
  }

  /** A line of a plain attribute type other than `dn` keeps the open entry's `dn`. */
  lemma AttributeKeepsDn(name: string, value: string)
    requires AttributeType(name) && name != "dn"
    ensures KeepsDn(name + ": " + value)
  {
    var line := name + ": " + value;
    assert !IsDnLine(line) by {
      if |name| >= 3 {
        assert line[..3][2] == name[2];
      } else if |name| == 2 {
        assert line[..3][..2] == name;
      } else {
        assert line[..3][1] == ':';
      }
    }
    assert line[|name|] == ':';
    assert line[..|name|] == name;
    IndexOfAt(line, ':', |name|);
    TrimSpaceOfTrimmed(name);
  }

  /** Lines that keep the `dn` leave the entry open with the same `dn`. */
  lemma {:induction false} KeepsDnRun(es: seq<Entry>, e: Entry, n: nat, lines: seq<string>)
    requires "dn" in e && forall k :: 0 <= k < |lines| ==> KeepsDn(lines[k])
    ensures var st := Run(Reading(es, Some(e), n), lines);
            st.Reading? && st.entries == es && st.current.Some? && st.read == n + |lines|
            && "dn" in st.current.value && st.current.value["dn"] == e["dn"]
    decreases |lines|
  {
    if lines != [] {
      var init := lines[..|lines| - 1];
      KeepsDnRun(es, e, n, init);
      var x := lines[|lines| - 1];
      assert KeepsDn(x);
      if x == "" {
        IndexOfFirst(x, ':');
      }
    }
  }

  /** After its `dn:` line, no line of a change record touches the `dn`. */
  lemma ChangeTypeLineKeepsDn(line: string)
    requires line == "changetype: modify"
    ensures KeepsDn(line)
  {
    assert AttributeType("changetype");
    assert line == "changetype" + ": " + "modify";
    AttributeKeepsDn("changetype", "modify");
  }

  lemma BlockTailKeepsDn(dn: string, attribute: string, value: string, changeType: string)
    requires AttributeType(attribute) && attribute != "dn" && AttributeType(changeType) && changeType != "dn"
    ensures var tail := BlockLines(dn, attribute, value, changeType)[1..];
            forall k :: 0 <= k < |tail| ==> KeepsDn(tail[k])
  {
    var tail := BlockLines(dn, attribute, value, changeType)[1..];
    forall k | 0 <= k < |tail| ensures KeepsDn(tail[k]) {
      if k == 0 {
        ChangeTypeLineKeepsDn(tail[0]);
      } else if k == 1 {
        assert tail[1] == changeType + ": " + attribute;
        AttributeKeepsDn(changeType, attribute);
      } else if k == 2 && changeType != "delete" {
        assert tail[2] == attribute + ": " + value;
        AttributeKeepsDn(attribute, value);
      } else {
        assert tail[k] == "";
      }
    }
  }

  /** Reading one change record closes the open entry and opens one carrying the record's `dn`. */
  lemma BlockRun(es: seq<Entry>, cur: Option<Entry>, n: nat, dn: string, attribute: string, value: string, changeType: string)
    requires Trimmed(dn)
    requires AttributeType(attribute) && attribute != "dn" && AttributeType(changeType) && changeType != "dn"
    ensures var lines := BlockLines(dn, attribute, value, changeType);
            var st := Run(Reading(es, cur, n), lines);
            st.Reading? && st.entries == es + Closed(cur) && st.current.Some? && st.read == n + |lines|
            && "dn" in st.current.value && st.current.value["dn"] == dn
  {
    var lines := BlockLines(dn, attribute, value, changeType);
    var l1, tail := "dn: " + dn, lines[1..];
    assert lines == [l1] + tail;
    DnLineStep(es, cur, n, dn);
    BlockTailKeepsDn(dn, attribute, value, changeType);
    RunCons(Reading(es, cur, n), l1, tail);
    KeepsDnRun(es + Closed(cur), map["dn" := dn], n + 1, tail);
  }

  /** A `dn:` line closes the open entry and opens one whose `dn` is the trimmed text after `dn: `. */
  lemma DnLineStep(es: seq<Entry>, cur: Option<Entry>, n: nat, dn: string)
    requires Trimmed(dn)
    ensures Step(Reading(es, cur, n), "dn: " + dn) == Reading(es + Closed(cur), Some(map["dn" := dn]), n + 1)
  {
    var l1 := "dn: " + dn;
    assert IsDnLine(l1) by {
      assert l1[..3] == "dn:";
    }
    assert l1[3..] == " " + dn;
    TrimSpaceAfterSpace(" ", dn);
  }

  lemma RunCons(st: ReadState, x: string, rest: seq<string>)
    ensures Run(st, [x] + rest) == Run(Step(st, x), rest)
  {
    RunAppend(st, [x], rest);
    assert [x][..0] == [];
  }

  /** After the lines of the first rows' records, one entry per written record, carrying its `dn`. */
  lemma {:induction false} AllLinesRun(rows: seq<Row>, dnIndex: nat, attributeIndex: nat, attribute: string, changeType: string)
    requires HasColumns(rows, dnIndex, attributeIndex) && PlainCells(rows, dnIndex, attributeIndex)
    requires AttributeType(attribute) && attribute != "dn" && AttributeType(changeType) && changeType != "dn"
    ensures var st := Run(Start, AllLines(rows, dnIndex, attributeIndex, attribute, changeType));
            st.Reading? && HoldsDns(st.entries + Closed(st.current), Dns(rows, dnIndex, attributeIndex))
    decreases |rows|
  {
    if rows != [] {
      var init, last := rows[..|rows| - 1], rows[|rows| - 1];
      assert HasColumns(init, dnIndex, attributeIndex) && PlainCells(init, dnIndex, attributeIndex) by {
        forall r | 0 <= r < |init| ensures init[r] == rows[r] { }
      }
      AllLinesRun(init, dnIndex, attributeIndex, attribute, changeType);
      var before := AllLines(init, dnIndex, attributeIndex, attribute, changeType);
      var st := Run(Start, before);
      RunAppend(Start, before, RowLines(last, dnIndex, attributeIndex, attribute, changeType));
      if last[attributeIndex] == "" {
        assert RowLines(last, dnIndex, attributeIndex, attribute, changeType) == [];
      } else {
        BlockRun(st.entries, st.current, st.read, last[dnIndex], attribute, last[attributeIndex], changeType);
        var st' := Run(st, RowLines(last, dnIndex, attributeIndex, attribute, changeType));
        var dns := Dns(init, dnIndex, attributeIndex);
        assert st'.entries + Closed(st'.current) == (st.entries + Closed(st.current)) + [st'.current.value];
        assert Dns(rows, dnIndex, attributeIndex) == dns + [last[dnIndex]];
      }
    }
  }

  /**
   * `readLdif` of `writeLdif`'s output: reading succeeds with one entry per
   * data row that has a non-empty attribute cell, in order, whose `dn` is that
   * row's `dn` cell.
   */
  lemma WriteReadBack(rows: seq<Row>, dnIndex: nat, attributeIndex: nat, attribute: string, changeType: string)
    requires HasColumns(rows, dnIndex, attributeIndex) && PlainCells(rows, dnIndex, attributeIndex)
    requires AttributeType(attribute) && attribute != "dn" && AttributeType(changeType) && changeType != "dn"
    ensures var read := ParseLdif(ScanLines(Blocks(rows, dnIndex, attributeIndex, attribute, changeType)));
            read.Ok? && HoldsDns(read.value, Dns(rows, dnIndex, attributeIndex))
  {
    var out := Blocks(rows, dnIndex, attributeIndex, attribute, changeType);
    BlocksScan(rows, dnIndex, attributeIndex, attribute, changeType, []);
    assert out + [] == out;
    assert ScanLines([]) == [];
    assert ScanLines(out) == AllLines(rows, dnIndex, attributeIndex, attribute, changeType);
    AllLinesRun(rows, dnIndex, attributeIndex, attribute, changeType);
  }
}
