/**
 * What `readLdif` promises about the lines it scans: it fails exactly at the
 * first attribute line that no `dn:` line precedes, and otherwise returns one
 * entry per `dn:` line, in file order, whose "dn" value starts with the text
 * after `dn:`. Repeated attributes accumulate in order and can be recovered
 * by splitting at "\n".
 */
module LdifRead {
  import opened Wrappers
  import opened Text
  import opened LdifTool

  /** The `dn:` lines among `lines`, in order. */
  function DnLines(lines: seq<string>): seq<string>
    decreases |lines|
  {
    if lines == [] then []
    else
      var last := lines[|lines| - 1];
      DnLines(lines[..|lines| - 1]) + (if IsDnLine(last) then [last] else [])
  }

  /** Line `i` holds an attribute and no `dn:` line comes before it. */
  predicate Orphan(lines: seq<string>, i: nat) {
    i < |lines| && !IsDnLine(lines[i]) && SplitAttribute(lines[i]).Some?
    && DnLines(lines[..i]) == []
  }

  ghost predicate NoOrphan(lines: seq<string>) {
    forall i: nat :: !Orphan(lines, i)
  }

  ghost predicate FirstOrphan(lines: seq<string>, i: nat) {
    Orphan(lines, i) && forall j: nat :: j < i ==> !Orphan(lines, j)
  }

  /**
   * One entry per `dn:` line, in order; each has a "dn" value that starts with
   * the trimmed text after `dn:` (a later attribute line named `dn` appends).
   */
  predicate OpenedBy(entries: seq<Entry>, dns: seq<string>) {
    |entries| == |dns|
    && forall k :: 0 <= k < |entries| ==>
         IsDnLine(dns[k]) && "dn" in entries[k] && TrimSpace(dns[k][3..]) <= entries[k]["dn"]
  }

  /** What the scanner loop of `readLdif` has built after `lines`. */
  ghost predicate Built(lines: seq<string>, st: ReadState) {
    match st
    case Failed(i) => FirstOrphan(lines, i)
    case Reading(entries, current, n) =>
      n == |lines| && NoOrphan(lines)
      && (current.None? <==> DnLines(lines) == [])
      && OpenedBy(entries + Closed(current), DnLines(lines))
  }

  lemma DnLinesSnoc(p: seq<string>, x: string)
    ensures DnLines(p + [x]) == DnLines(p) + (if IsDnLine(x) then [x] else [])
  {
    var l := p + [x];
    assert l[..|l| - 1] == p;
  }

  lemma OrphanBefore(p: seq<string>, x: string, i: nat)
    requires i < |p|
    ensures Orphan(p + [x], i) == Orphan(p, i)
  {
    var l := p + [x];
    assert l[i] == p[i];
    assert l[..i] == p[..i];
  }

  lemma OrphanLast(p: seq<string>, x: string)
    ensures Orphan(p + [x], |p|)
        == (!IsDnLine(x) && SplitAttribute(x).Some? && DnLines(p) == [])
  {
    var l := p + [x];
    assert l[..|p|] == p;
  }

  lemma NoOrphanSnoc(p: seq<string>, x: string)
    requires NoOrphan(p)
    requires IsDnLine(x) || SplitAttribute(x).None? || DnLines(p) != []
    ensures NoOrphan(p + [x])
  {
    forall i: nat ensures !Orphan(p + [x], i) {
      if i < |p| {
        OrphanBefore(p, x, i);
      } else if i == |p| {
        OrphanLast(p, x);
      }
    }
  }

  lemma FirstOrphanSnoc(p: seq<string>, x: string, i: nat)
    requires FirstOrphan(p, i)
    ensures FirstOrphan(p + [x], i)
  {
    OrphanBefore(p, x, i);
    forall j: nat | j < i ensures !Orphan(p + [x], j) {
      OrphanBefore(p, x, j);
    }
  }

  lemma FirstOrphanLast(p: seq<string>, x: string)
    requires NoOrphan(p)
    requires !IsDnLine(x) && SplitAttribute(x).Some? && DnLines(p) == []
    ensures FirstOrphan(p + [x], |p|)
  {
    OrphanLast(p, x);
    forall j: nat | j < |p| ensures !Orphan(p + [x], j) {
      OrphanBefore(p, x, j);
    }
  }

  lemma FirstOrphanUnique(lines: seq<string>, i: nat, j: nat)
    requires FirstOrphan(lines, i) && FirstOrphan(lines, j)
    ensures i == j
  {
  }

  lemma OpenedSnoc(entries: seq<Entry>, dns: seq<string>, x: string)
    requires OpenedBy(entries, dns) && IsDnLine(x)
    ensures OpenedBy(entries + [NewEntry(x)], dns + [x])
  {
    var es := entries + [NewEntry(x)];
    var ds := dns + [x];
    forall k | 0 <= k < |es|
      ensures IsDnLine(ds[k]) && "dn" in es[k] && TrimSpace(ds[k][3..]) <= es[k]["dn"]
    {
      if k < |entries| {
        assert es[k] == entries[k] && ds[k] == dns[k];
      } else {
        assert es[k] == NewEntry(x) && ds[k] == x;
      }
    }
  }

  /** The "dn" value only grows when a value is added. */
  lemma AddValueKeepsDn(entry: Entry, attr: string, value: string, t: string)
    requires "dn" in entry && t <= entry["dn"]
    ensures "dn" in AddValue(entry, attr, value) && t <= AddValue(entry, attr, value)["dn"]
  {
    var d := entry["dn"];
    if attr == "dn" {
      var e := d + "\n" + value;
      assert AddValue(entry, attr, value)["dn"] == e;
      assert e[..|d|] == d;
      assert e[..|t|] == d[..|t|];
    }
  }

  lemma OpenedAdd(entries: seq<Entry>, entry: Entry, dns: seq<string>, attr: string, value: string)
    requires OpenedBy(entries + [entry], dns)
    ensures OpenedBy(entries + [AddValue(entry, attr, value)], dns)
  {
    var before := entries + [entry];
    var after := entries + [AddValue(entry, attr, value)];
    forall k | 0 <= k < |after|
      ensures IsDnLine(dns[k]) && "dn" in after[k] && TrimSpace(dns[k][3..]) <= after[k]["dn"]
    {
      if k < |entries| {
        assert after[k] == before[k];
      } else {
        assert before[k] == entry && after[k] == AddValue(entry, attr, value);
        AddValueKeepsDn(entry, attr, value, TrimSpace(dns[k][3..]));
      }
    }
  }

  /** Each iteration of the scanner loop keeps `Built`. */
  lemma BuiltStep(p: seq<string>, x: string, st: ReadState)
    requires Built(p, st)
    ensures Built(p + [x], Step(st, x))
  {
    DnLinesSnoc(p, x);
    match st
    case Failed(i) =>
      FirstOrphanSnoc(p, x, i);
    case Reading(entries, current, n) =>
      AppendClosed(entries, current);
      if IsDnLine(x) {
        StepAtDn(entries, current, n, x);
        NoOrphanSnoc(p, x);
        OpenedSnoc(entries + Closed(current), DnLines(p), x);
        assert Closed(Some(NewEntry(x))) == [NewEntry(x)];
      } else if SplitAttribute(x).None? {
        StepAtOther(entries, current, n, x);
        NoOrphanSnoc(p, x);
      } else if current.None? {
        FirstOrphanLast(p, x);
      } else {
        var (attr, value) := SplitAttribute(x).value;
        StepAtAttribute(entries, current.value, n, x, attr, value);
        NoOrphanSnoc(p, x);
        OpenedAdd(entries, current.value, DnLines(p), attr, value);
        assert Closed(Some(AddValue(current.value, attr, value))) == [AddValue(current.value, attr, value)];
      }
  }

  lemma {:induction false} RunBuilt(lines: seq<string>)
    ensures Built(lines, Run(Start, lines))
    decreases |lines|
  {
    if lines == [] {
      assert Closed(None) == [];
    } else {
      var p := lines[..|lines| - 1];
      RunBuilt(p);
      BuiltStep(p, lines[|lines| - 1], Run(Start, p));
      assert p + [lines[|lines| - 1]] == lines;
    }
  }

  /** `readLdif` fails at line `i` exactly when `i` is the first orphan attribute line. */
  lemma ParseLdifFails(lines: seq<string>, i: nat)
    ensures ParseLdif(lines) == Err(AttributeBeforeDn(i)) <==> FirstOrphan(lines, i)
  {
    RunBuilt(lines);
    var st := Run(Start, lines);
    if FirstOrphan(lines, i) {
      assert !NoOrphan(lines);
      assert st.Failed?;
      FirstOrphanUnique(lines, i, st.line);
    }
  }

  /**
   * `readLdif` succeeds exactly when no attribute line precedes every `dn:`
   * line, and then returns one entry per `dn:` line, in order.
   */
  lemma ParseLdifEntries(lines: seq<string>)
    ensures ParseLdif(lines).Ok? <==> NoOrphan(lines)
    ensures ParseLdif(lines).Ok? ==> OpenedBy(ParseLdif(lines).value, DnLines(lines))
  {
    RunBuilt(lines);
  }

  /** Attribute names and values keep out what the line keeps out. */
  lemma SplitAttributeKeeps(line: string, c: char)
    requires c !in line && SplitAttribute(line).Some?
    ensures c !in SplitAttribute(line).value.0 && c !in SplitAttribute(line).value.1
  {
    var i := IndexOf(line, ':');
    var head, rest := line[..i], line[i + 1..];
    forall k | 0 <= k < |head| ensures head[k] != c {
      assert head[k] == line[k];
    }
    forall k | 0 <= k < |rest| ensures rest[k] != c {
      assert rest[k] == line[i + 1 + k];
    }
    TrimSpaceKeeps(line[..i], c);
    TrimSpaceKeeps(line[i + 1..], c);
  }

  /**
   * Adding a value touches only `attr`, and the values of `attr` split at
   * "\n" are the earlier ones followed by the new one.
   */
  lemma AddValueSplit(entry: Entry, attr: string, value: string)
    requires '\n' !in value
    ensures AddValue(entry, attr, value).Keys == entry.Keys + {attr}
    ensures forall k :: k in entry && k != attr ==> AddValue(entry, attr, value)[k] == entry[k]
    ensures Split(AddValue(entry, attr, value)[attr], '\n')
         == (if attr in entry then Split(entry[attr], '\n') else []) + [value]
  {
    if attr in entry {
      SplitSnoc(entry[attr], '\n', value);
    } else {
      assert Join([value], "\n") == value;
      assert NoneHolds([value], '\n');
      SplitJoin([value], '\n');
    }
  }

  // ---------------------------------------------------------------------------
  // The attributes of each entry, for the file as a whole
  // ---------------------------------------------------------------------------

  /** The value of a `dn:` line, and the lines after it up to the next `dn:` line. */
  datatype Section = Section(dn: string, body: seq<string>)

  /** The sections of `lines`, in order; lines before the first `dn:` line belong to none. */
  function Sections(lines: seq<string>): seq<Section>
    decreases |lines|
  {
    if lines == [] then []
    else
      var secs := Sections(lines[..|lines| - 1]);
      var x := lines[|lines| - 1];
      if IsDnLine(x) then secs + [Section(TrimSpace(x[3..]), [])]
      else if secs == [] then []
      else secs[..|secs| - 1] + [Section(secs[|secs| - 1].dn, secs[|secs| - 1].body + [x])]
  }

  /** The trimmed values of the lines of `body` whose attribute name is `a`, in file order. */
  function AttrValues(body: seq<string>, a: string): seq<string>
    decreases |body|
  {
    if body == [] then []
    else
      var split := SplitAttribute(body[|body| - 1]);
      AttrValues(body[..|body| - 1], a) + (if split.Some? && split.value.0 == a then [split.value.1] else [])
  }

  /** What the `dn:` line itself gives attribute `a`. */
  function DnPart(a: string, dn: string): seq<string> {
    if a == "dn" then [dn] else []
  }

  /**
   * For attribute `a`, `entry` is what its section says: it has `a` exactly
   * when `a` is "dn" or some line of the body names it, and then its values,
   * split at line feeds, are the section's values for `a` in file order
   * (after the value of the `dn:` line itself, for "dn").
   */
  predicate DescribesAt(entry: Entry, sec: Section, a: string) {
    (a in entry <==> a == "dn" || AttrValues(sec.body, a) != [])
    && (a in entry ==> Split(entry[a], '\n') == DnPart(a, sec.dn) + AttrValues(sec.body, a))
  }

  /** `entry` is what its section says, for every attribute name. */
  ghost predicate Describes(entry: Entry, sec: Section) {
    forall a :: DescribesAt(entry, sec, a)
  }

  /** What the reader state after `lines` holds, section by section. */
  ghost predicate Tracks(lines: seq<string>, st: ReadState) {
    st.Reading? ==>
      var open := st.entries + Closed(st.current);
      var secs := Sections(lines);
      (st.current.None? <==> secs == [])
      && |open| == |secs|
      && forall k :: 0 <= k < |secs| ==> Describes(open[k], secs[k])
  }

  lemma SectionsSnoc(p: seq<string>, x: string)
    ensures var secs := Sections(p);
            Sections(p + [x])
            == if IsDnLine(x) then secs + [Section(TrimSpace(x[3..]), [])]
               else if secs == [] then []
               else secs[..|secs| - 1] + [Section(secs[|secs| - 1].dn, secs[|secs| - 1].body + [x])]
  {
    var l := p + [x];
    assert l[..|l| - 1] == p;
  }

  lemma AttrValuesSnoc(body: seq<string>, x: string, a: string)
    ensures AttrValues(body + [x], a)
         == AttrValues(body, a)
            + (if SplitAttribute(x).Some? && SplitAttribute(x).value.0 == a then [SplitAttribute(x).value.1] else [])
  {
    var l := body + [x];
    assert l[..|l| - 1] == body;
  }

  /** The entry a `dn:` line opens describes its section, still without body. */
  lemma DescribesNew(x: string)
    requires IsDnLine(x) && '\n' !in x
    ensures Describes(NewEntry(x), Section(TrimSpace(x[3..]), []))
  {
    var v := TrimSpace(x[3..]);
    assert '\n' !in x[3..] by {
      assert forall k :: 0 <= k < |x[3..]| ==> x[3..][k] == x[3 + k];
    }
    TrimSpaceKeeps(x[3..], '\n');
    var empty: Entry := map[];
    AddValueSplit(empty, "dn", v);
    assert AddValue(empty, "dn", v) == NewEntry(x);
  }

  /** A line that is neither a `dn:` line nor an attribute adds nothing to a section. */
  lemma DescribesOther(entry: Entry, sec: Section, x: string)
    requires Describes(entry, sec) && SplitAttribute(x).None?
    ensures Describes(entry, Section(sec.dn, sec.body + [x]))
  {
    forall a ensures DescribesAt(entry, Section(sec.dn, sec.body + [x]), a) {
      assert DescribesAt(entry, sec, a);
      AttrValuesSnoc(sec.body, x, a);
    }
  }

  /** An attribute line adds its value to the open entry and to its section alike. */
  lemma DescribesAdd(entry: Entry, sec: Section, x: string)
    requires Describes(entry, sec) && '\n' !in x && SplitAttribute(x).Some?
    ensures Describes(AddValue(entry, SplitAttribute(x).value.0, SplitAttribute(x).value.1),
                      Section(sec.dn, sec.body + [x]))
  {
    forall a
      ensures DescribesAt(AddValue(entry, SplitAttribute(x).value.0, SplitAttribute(x).value.1),
                          Section(sec.dn, sec.body + [x]), a)
    {
      assert DescribesAt(entry, sec, a);
      DescribesAddAt(entry, sec, x, a);
    }
  }

  lemma DescribesAddAt(entry: Entry, sec: Section, x: string, a: string)
    requires DescribesAt(entry, sec, a) && '\n' !in x && SplitAttribute(x).Some?
    ensures DescribesAt(AddValue(entry, SplitAttribute(x).value.0, SplitAttribute(x).value.1),
                        Section(sec.dn, sec.body + [x]), a)
  {
    var (attr, value) := SplitAttribute(x).value;
    AttrValuesSnoc(sec.body, x, a);
    var after := AddValue(entry, attr, value);
    if a == attr {
      SplitAttributeKeeps(x, '\n');
      AddValueSplit(entry, attr, value);
      if attr !in entry {
        assert AttrValues(sec.body, a) == [] && DnPart(a, sec.dn) == [];
      }
    } else {
      assert AttrValues(sec.body + [x], a) == AttrValues(sec.body, a);
      assert a in after <==> a in entry;
      if a in entry {
        assert after[a] == entry[a];
      }
    }
  }

  lemma OpenSnoc(open: seq<Entry>, secs: seq<Section>, e: Entry, sec: Section)
    requires |open| == |secs| && forall k :: 0 <= k < |secs| ==> Describes(open[k], secs[k])
    requires Describes(e, sec)
    ensures var o := open + [e];
            var s := secs + [sec];
            |o| == |s| && forall k :: 0 <= k < |s| ==> Describes(o[k], s[k])
  {
    var o := open + [e];
    var s := secs + [sec];
    forall k | 0 <= k < |s| ensures Describes(o[k], s[k]) {
      if k < |secs| {
        assert o[k] == open[k] && s[k] == secs[k];
      }
    }
  }

  /** Each iteration of the scanner loop keeps `Tracks`. */
  lemma TracksStep(p: seq<string>, x: string, st: ReadState)
    requires Tracks(p, st) && '\n' !in x
    ensures Tracks(p + [x], Step(st, x))
  {
    SectionsSnoc(p, x);
    var secs := Sections(p);
    if st.Reading? {
      var entries, current := st.entries, st.current;
      var open := entries + Closed(current);
      AppendClosed(entries, current);
      if IsDnLine(x) {
        DescribesNew(x);
        OpenSnoc(open, secs, NewEntry(x), Section(TrimSpace(x[3..]), []));
        assert Closed(Some(NewEntry(x))) == [NewEntry(x)];
      } else if current.Some? {
        var last := |secs| - 1;
        var sec := secs[last];
        assert open == entries + [current.value];
        assert open[last] == current.value;
        assert secs == secs[..last] + [sec];
        var e := current.value;
        var e' := e;
        if SplitAttribute(x).None? {
          DescribesOther(e, sec, x);
        } else {
          e' := AddValue(e, SplitAttribute(x).value.0, SplitAttribute(x).value.1);
          DescribesAdd(e, sec, x);
          assert Closed(Some(e')) == [e'];
        }
        OpenSnoc(entries, secs[..last], e', Section(sec.dn, sec.body + [x]));
      }
    }
  }

  lemma {:induction false} RunTracks(lines: seq<string>)
    requires NoneHolds(lines, '\n')
    ensures Tracks(lines, Run(Start, lines))
    decreases |lines|
  {
    if lines == [] {
      assert Closed(None) == [];
    } else {
      var p := lines[..|lines| - 1];
      assert NoneHolds(p, '\n') by {
        assert forall k :: 0 <= k < |p| ==> p[k] == lines[k];
      }
      RunTracks(p);
      assert '\n' !in lines[|lines| - 1];
      TracksStep(p, lines[|lines| - 1], Run(Start, p));
      assert p + [lines[|lines| - 1]] == lines;
    }
  }

  /**
   * For the file as a whole: when `readLdif` succeeds, entry `k` is what
   * section `k` says, that is the `dn:` line `k` and the lines up to the next
   * one: exactly the attributes those lines name, each with the trimmed
   * values of its lines, joined by line feeds in file order.
   */
  lemma ParseLdifAttributes(lines: seq<string>)
    requires NoneHolds(lines, '\n')
    ensures ParseLdif(lines).Ok? ==>
              var es := ParseLdif(lines).value;
              |es| == |Sections(lines)|
              && forall k :: 0 <= k < |es| ==> Describes(es[k], Sections(lines)[k])
  {
    RunTracks(lines);
  }

  /** Section `k` holds the value of `dn:` line `k`. */
  ghost predicate DnAgree(secs: seq<Section>, dns: seq<string>) {
    |secs| == |dns|
    && forall k :: 0 <= k < |dns| ==> IsDnLine(dns[k]) && secs[k].dn == TrimSpace(dns[k][3..])
  }

  /** The sections are those of the `dn:` lines, one each, in order. */
  lemma {:induction false} SectionsDn(lines: seq<string>)
    ensures DnAgree(Sections(lines), DnLines(lines))
    decreases |lines|
  {
    if lines != [] {
      var p := lines[..|lines| - 1];
      var x := lines[|lines| - 1];
      assert p + [x] == lines;
      SectionsDn(p);
      SectionsSnoc(p, x);
      DnLinesSnoc(p, x);
      var secs := Sections(p);
      if IsDnLine(x) {
        DnAgreeDn(secs, DnLines(p), x);
      } else if secs != [] {
        DnAgreeBody(secs, DnLines(p), x);
      }
    }
  }

  lemma DnAgreeDn(secs: seq<Section>, dns: seq<string>, x: string)
    requires DnAgree(secs, dns) && IsDnLine(x)
    ensures DnAgree(secs + [Section(TrimSpace(x[3..]), [])], dns + [x])
  {
    var s', d' := secs + [Section(TrimSpace(x[3..]), [])], dns + [x];
    forall k | 0 <= k < |d'| ensures IsDnLine(d'[k]) && s'[k].dn == TrimSpace(d'[k][3..]) {
      if k < |dns| {
        assert s'[k] == secs[k] && d'[k] == dns[k];
      }
    }
  }

  lemma DnAgreeBody(secs: seq<Section>, dns: seq<string>, x: string)
    requires DnAgree(secs, dns) && secs != []
    ensures var last := |secs| - 1;
            DnAgree(secs[..last] + [Section(secs[last].dn, secs[last].body + [x])], dns)
  {
    var last := |secs| - 1;
    var s' := secs[..last] + [Section(secs[last].dn, secs[last].body + [x])];
    forall k | 0 <= k < |dns| ensures IsDnLine(dns[k]) && s'[k].dn == TrimSpace(dns[k][3..]) {
      if k < last {
        assert s'[k] == secs[k];
      }
    }
  }

  /** What `readLdif` returns for a file's text: the lines the scanner yields, read section by section. */
  lemma ReadLdifText(text: string)
    ensures var lines := ScanLines(text);
            ParseLdif(lines).Ok? ==>
              |ParseLdif(lines).value| == |Sections(lines)|
              && forall k :: 0 <= k < |Sections(lines)| ==> Describes(ParseLdif(lines).value[k], Sections(lines)[k])
  {
    ScanLinesNoNewline(text);
    ParseLdifAttributes(ScanLines(text));
  }
}
