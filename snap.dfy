/**
 * The `snap` console: a form and a snapshot table over Snapper. The model
 * keeps the sequential logic: the focus cycle bound to PgUp/PgDn, the
 * configuration list taken from `snapper list-configs`, the table drawn from
 * `snapper list`, the dispatch of an activated cell to delete or revert, and
 * the `snapshotUpdated` flag that tells the refresh loop to redraw. Running
 * snapper is an oracle `run` that says whether a command line succeeds; the
 * CSV output of snapper is given as its records.
 */
module Snap {
  import opened Wrappers

  // ---------------------------------------------------------------------------
  // Focus cycle
  // ---------------------------------------------------------------------------

  /** The first focused element, if any. */
  function FirstFocused(focused: seq<bool>): (r: Option<nat>)
    ensures r.None? <==> true !in focused
    ensures r.Some? ==> r.value < |focused| && focused[r.value] && true !in focused[..r.value]
    decreases |focused|
  {
    if focused == [] then None
    else if focused[0] then Some(0)
    else
      var r := FirstFocused(focused[1..]);
      FirstFocusedStep(focused, r);
      if r.None? then None else Some(r.value + 1)
  }

  lemma FirstFocusedStep(focused: seq<bool>, r: Option<nat>)
    requires focused != [] && !focused[0]
    requires r.None? <==> true !in focused[1..]
    requires r.Some? ==> r.value < |focused| - 1 && focused[1..][r.value] && true !in focused[1..][..r.value]
    ensures r.None? <==> true !in focused
    ensures r.Some? ==> focused[r.value + 1] && true !in focused[..r.value + 1]
  {
    assert focused == [focused[0]] + focused[1..];
    if r.Some? {
      assert focused[..r.value + 1] == [focused[0]] + focused[1..][..r.value];
    }
  }

  /**
   * `cycleFocus`: the element that gets the focus, the one after the first
   * focused element (or before it, in reverse), wrapping around; nothing when
   * no element has the focus.
   */
  function CycleFocus(focused: seq<bool>, reverse: bool): (r: Option<nat>)
    ensures r.None? <==> true !in focused
    ensures r.Some? ==> r.value < |focused|
    ensures r.Some? && !reverse ==> (r.value - 1 + |focused|) % |focused| == FirstFocused(focused).value
    ensures r.Some? && reverse ==> (r.value + 1) % |focused| == FirstFocused(focused).value
  {
    var first := FirstFocused(focused);
    if first.None? then None
    else
      var n := |focused|;
      var i := first.value;
      if reverse then
        CycleBack(n, i);
        Some((i - 1 + n) % n)
      else
        CycleForth(n, i);
        Some((i + 1) % n)
  }

  /** Exactly element `i` of `n` has the focus. */
  function FocusOn(n: nat, i: nat): (focused: seq<bool>)
    requires i < n
    ensures |focused| == n
  {
    seq(n, k => k == i)
  }

  lemma FirstFocusedOn(n: nat, i: nat)
    requires i < n
    ensures FirstFocused(FocusOn(n, i)) == Some(i)
  {
    var f := FocusOn(n, i);
    assert f[i];
    assert true !in f[..i] by {
      forall k | 0 <= k < i ensures f[..i][k] == false {
        assert f[..i][k] == f[k];
      }
    }
    var r := FirstFocused(f);
    assert f[r.value];
  }

  /** PgUp then PgDn (or PgDn then PgUp) gives the focus back to where it was. */
  lemma CycleFocusInverse(n: nat, i: nat, reverse: bool)
    requires i < n
    ensures CycleFocus(FocusOn(n, i), reverse).Some?
    ensures CycleFocus(FocusOn(n, CycleFocus(FocusOn(n, i), reverse).value), !reverse) == Some(i)
  {
    FirstFocusedOn(n, i);
    var j := CycleFocus(FocusOn(n, i), reverse).value;
    FirstFocusedOn(n, j);
    if reverse {
      assert j == (i - 1 + n) % n;
      CycleBack(n, i);
    } else {
      assert j == (i + 1) % n;
      CycleForth(n, i);
    }
  }

  lemma CycleBack(n: nat, i: nat)
    requires i < n
    ensures ((i - 1 + n) % n + 1) % n == i
  {
    if i == 0 {
      assert (n - 1) % n == n - 1;
    } else {
      assert (i - 1 + n) % n == i - 1;
    }
  }

  lemma CycleForth(n: nat, i: nat)
    requires i < n
    ensures ((i + 1) % n - 1 + n) % n == i
  {
    if i == n - 1 {
      assert (i + 1) % n == 0;
    } else {
      assert (i + 1) % n == i + 1;
    }
  }

  datatype Key = PgUp | PgDn | OtherKey

  /** The input capture of the layout: PgUp cycles forward, PgDn backward. */
  function OnKey(focused: seq<bool>, key: Key): (r: Option<nat>)
    ensures key == PgUp ==> r == CycleFocus(focused, false)
    ensures key == PgDn ==> r == CycleFocus(focused, true)
    ensures key == OtherKey ==> r.None?
  {
    match key
    case PgUp => CycleFocus(focused, false)
    case PgDn => CycleFocus(focused, true)
    case OtherKey => None
  }

  // ---------------------------------------------------------------------------
  // Snapper command lines
  // ---------------------------------------------------------------------------

  const ListConfigsArgs: seq<string> := ["snapper", "--csvout", "list-configs", "--columns", "config"]

  function ListArgs(config: string): seq<string> {
    ["snapper", "--csvout", "-c", config, "list", "--columns", "config,number,date,description"]
  }

  function CreateArgs(config: string, description: string): seq<string> {
    ["snapper", "-c", config, "create", "-d", description]
  }

  function DeleteArgs(config: string, id: string): seq<string> {
    ["snapper", "-c", config, "delete", id]
  }

  /** `undochange` from the snapshot back to the current state, snapshot 0. */
  function RevertArgs(config: string, id: string): seq<string> {
    ["snapper", "-c", config, "undochange", id + "..0"]
  }

  /** The snapshot a command line acts on can be read back from it. */
  lemma ArgsName(config: string, id: string)
    ensures DeleteArgs(config, id)[4] == id
    ensures var range := RevertArgs(config, id)[4];
            |range| == |id| + 3 && range[..|id|] == id && range[|id|..] == "..0"
  {
  }

  /**
   * `getSnapperConfigurations` after the CSV is read: the first column of
   * every record but the header.
   */
  method Configurations(records: seq<seq<string>>) returns (configurations: seq<string>)
    requires forall r :: 0 <= r < |records| ==> |records[r]| >= 1
    ensures |records| == 0 ==> configurations == []
    ensures |records| > 0 ==> |configurations| == |records| - 1
    ensures forall k :: 0 <= k < |configurations| ==> configurations[k] == records[k + 1][0]
  {
    configurations := [];
    var row := 0;
    while row < |records|
      invariant 0 <= row <= |records|
      invariant |configurations| == if row == 0 then 0 else row - 1
      invariant forall k :: 0 <= k < |configurations| ==> configurations[k] == records[k + 1][0]
    {
      if row != 0 {
        configurations := configurations + [records[row][0]];
      }
      row := row + 1;
    }
  }

  // ---------------------------------------------------------------------------
  // Snapshot table
  // ---------------------------------------------------------------------------

  datatype TableCell = TableCell(text: string, selectable: bool)

  const Header: seq<string> := ["Delete", "Rollback", "Config", "ID", "Timestamp", "Description"]

  /** A `snapper list` listing: every record after the header has four columns. */
  predicate Listing(snapshots: seq<seq<string>>) {
    forall r :: 1 <= r < |snapshots| ==> |snapshots[r]| >= 4
  }

  /** Column `c` of record `r`, or "" where the record has none. */
  function Field(snapshots: seq<seq<string>>, r: int, c: int): string {
    if 0 <= r < |snapshots| && 0 <= c < |snapshots[r]| then snapshots[r][c] else ""
  }

  /** The cell the refresh draws in a table position. */
  function LayoutCell(snapshots: seq<seq<string>>, row: int, col: int): TableCell {
    if row == 0 then TableCell(if 0 <= col < 6 then Header[col] else "", false)
    else if col == 0 then TableCell("Delete", true)
    else if col == 1 then TableCell("Rollback", true)
    else TableCell(Field(snapshots, row, col - 2), false)
  }

  /** The number of table rows drawn for a listing: the header, then one per snapshot. */
  function TableRows(snapshots: seq<seq<string>>): nat {
    if |snapshots| == 0 then 1 else |snapshots|
  }

  /** Position `p` comes before `(row, col)` in the order the table is drawn. */
  predicate DrawnBefore(p: (int, int), row: int, col: int) {
    0 <= p.0 && 0 <= p.1 < 6 && (p.0 < row || (p.0 == row && p.1 < col))
  }

  /** The table holds exactly the cells drawn before `(row, col)`. */
  ghost predicate Filled(table: map<(int, int), TableCell>, snapshots: seq<seq<string>>, row: int, col: int) {
    (forall p :: p in table ==> DrawnBefore(p, row, col))
    && forall p :: DrawnBefore(p, row, col) ==> p in table && table[p] == LayoutCell(snapshots, p.0, p.1)
  }

  /** The table shows the listing and nothing else. */
  ghost predicate Shows(table: map<(int, int), TableCell>, snapshots: seq<seq<string>>) {
    Filled(table, snapshots, TableRows(snapshots), 0)
  }

  lemma FilledSet(table: map<(int, int), TableCell>, snapshots: seq<seq<string>>, row: int, col: int)
    requires 0 <= row && 0 <= col < 6 && Filled(table, snapshots, row, col)
    ensures Filled(table[(row, col) := LayoutCell(snapshots, row, col)], snapshots, row, col + 1)
  {
  }

  lemma FilledRow(table: map<(int, int), TableCell>, snapshots: seq<seq<string>>, row: int)
    requires Filled(table, snapshots, row, 6)
    ensures Filled(table, snapshots, row + 1, 0)
  {
    forall p | DrawnBefore(p, row + 1, 0) ensures DrawnBefore(p, row, 6) {
    }
  }

  /**
   * What a drawn table shows: the six labels in row 0 and, for each snapshot
   * record `r`, Delete and Rollback (the only selectable cells) followed by
   * its four columns; no other cell, so nothing of an earlier listing stays.
   */
  lemma ShowsCells(table: map<(int, int), TableCell>, snapshots: seq<seq<string>>)
    requires Shows(table, snapshots) && Listing(snapshots)
    ensures forall c :: 0 <= c < 6 ==> (0, c) in table && table[(0, c)] == TableCell(Header[c], false)
    ensures forall r :: 1 <= r < |snapshots| ==>
              (r, 0) in table && table[(r, 0)] == TableCell("Delete", true)
              && (r, 1) in table && table[(r, 1)] == TableCell("Rollback", true)
    ensures forall r, c :: 1 <= r < |snapshots| && 0 <= c < 4 ==>
              (r, c + 2) in table && table[(r, c + 2)] == TableCell(snapshots[r][c], false)
    ensures forall p :: p in table ==> 0 <= p.1 < 6 && 0 <= p.0 < TableRows(snapshots)
    ensures forall p :: p in table && table[p].selectable ==> p.0 >= 1 && p.1 <= 1
  {
    forall c | 0 <= c < 6 ensures (0, c) in table && table[(0, c)] == TableCell(Header[c], false) {
      assert DrawnBefore((0, c), TableRows(snapshots), 0);
    }
    forall r | 1 <= r < |snapshots|
      ensures (r, 0) in table && table[(r, 0)] == TableCell("Delete", true)
      ensures (r, 1) in table && table[(r, 1)] == TableCell("Rollback", true)
    {
      assert DrawnBefore((r, 0), TableRows(snapshots), 0);
      assert DrawnBefore((r, 1), TableRows(snapshots), 0);
    }
    forall r, c | 1 <= r < |snapshots| && 0 <= c < 4
      ensures (r, c + 2) in table && table[(r, c + 2)] == TableCell(snapshots[r][c], false)
    {
      assert DrawnBefore((r, c + 2), TableRows(snapshots), 0);
    }
  }

  /** A header-only listing (or no listing) draws the header row alone. */
  lemma ShowsHeaderOnly(table: map<(int, int), TableCell>, snapshots: seq<seq<string>>)
    requires Shows(table, snapshots) && |snapshots| <= 1
    ensures table.Keys == set c | 0 <= c < 6 :: (0, c)
  {
    forall p | p in table ensures p.0 == 0 && 0 <= p.1 < 6 {
      assert DrawnBefore(p, 1, 0);
    }
    forall c | 0 <= c < 6 ensures (0, c) in table {
      assert DrawnBefore((0, c), 1, 0);
    }
  }

  datatype Action = Delete(id: string) | Revert(id: string)

  /**
   * The selected-cell callback: column 0 deletes the snapshot of the row,
   * column 1 reverts it, other columns do nothing.
   */
  function Dispatch(snapshots: seq<seq<string>>, row: int, column: int): (a: Option<Action>)
    requires column == 0 || column == 1 ==> 0 <= row < |snapshots| && |snapshots[row]| >= 2
    ensures column == 0 ==> a == Some(Delete(snapshots[row][1]))
    ensures column == 1 ==> a == Some(Revert(snapshots[row][1]))
    ensures column != 0 && column != 1 ==> a.None?
  {
    if column == 1 then Some(Revert(snapshots[row][1]))
    else if column == 0 then Some(Delete(snapshots[row][1]))
    else None
  }

  /**
   * On a drawn table the selectable cells are the ones that dispatch, and the
   * snapshot acted on is the one shown in the ID column of that row.
   */
  lemma DispatchShownId(table: map<(int, int), TableCell>, snapshots: seq<seq<string>>, row: int, column: int)
    requires Shows(table, snapshots) && Listing(snapshots)
    requires (row, column) in table && table[(row, column)].selectable
    ensures 1 <= row < |snapshots| && (column == 0 || column == 1)
    ensures Dispatch(snapshots, row, column).Some?
    ensures (row, 3) in table && Dispatch(snapshots, row, column).value.id == table[(row, 3)].text
  {
    ShowsCells(table, snapshots);
    assert DrawnBefore((row, column), TableRows(snapshots), 0);
    assert DrawnBefore((row, 3), TableRows(snapshots), 0);
  }

  /**
   * The console state the callbacks share: the `snapshotUpdated` flag, the
   * chosen configuration, the name typed into the form, the table cells, and
   * the listing the selection callback reads together with the configuration
   * that listing was taken from (the `config` of the refresh loop that drew it).
   */
  class Console {
    var updated: bool
    var selectedConfig: string
    var snapshotName: string
    var table: map<(int, int), TableCell>
    var snapshots: seq<seq<string>>
    var shownConfig: string

    /** `init` marks the table stale so that the first refresh draws it. */
    constructor ()
      ensures updated && selectedConfig == "" && snapshotName == ""
      ensures table == map[] && snapshots == [] && shownConfig == ""
    {
      updated := true;
      selectedConfig := "";
      snapshotName := "";
      table := map[];
      snapshots := [];
      shownConfig := "";
    }

    /** The drop-down callback: choosing a configuration marks the table stale. */
    method SelectConfig(configurations: seq<string>, index: nat)
      requires index < |configurations|
      modifies this
      ensures selectedConfig == configurations[index] && updated
      ensures snapshotName == old(snapshotName) && table == old(table) && snapshots == old(snapshots)
      ensures shownConfig == old(shownConfig)
    {
      selectedConfig := configurations[index];
      updated := true;
    }

    /** The input field callback. */
    method SetName(text: string)
      modifies this
      ensures snapshotName == text
      ensures updated == old(updated) && selectedConfig == old(selectedConfig)
      ensures table == old(table) && snapshots == old(snapshots) && shownConfig == old(shownConfig)
    {
      snapshotName := text;
    }

    /** `createSnapshot`: marks the table stale only when snapper succeeds. */
    method CreateSnapshot(run: seq<string> -> bool) returns (ok: bool)
      modifies this
      ensures ok == run(CreateArgs(selectedConfig, snapshotName))
      ensures updated == (old(updated) || ok)
      ensures selectedConfig == old(selectedConfig) && snapshotName == old(snapshotName)
      ensures table == old(table) && snapshots == old(snapshots) && shownConfig == old(shownConfig)
    {
      ok := run(CreateArgs(selectedConfig, snapshotName));
      if ok {
        updated := true;
      }
    }

    /** `deleteSnapshot` in configuration `config`: marks the table stale only when snapper succeeds. */
    method DeleteSnapshot(config: string, id: string, run: seq<string> -> bool) returns (ok: bool)
      modifies this
      ensures ok == run(DeleteArgs(config, id))
      ensures updated == (old(updated) || ok)
      ensures selectedConfig == old(selectedConfig) && snapshotName == old(snapshotName)
      ensures table == old(table) && snapshots == old(snapshots) && shownConfig == old(shownConfig)
    {
      ok := run(DeleteArgs(config, id));
      if ok {
        updated := true;
      }
    }

    /** `revertSnapshot` in configuration `config`: never touches the flag. */
    method RevertSnapshot(config: string, id: string, run: seq<string> -> bool) returns (ok: bool)
      ensures ok == run(RevertArgs(config, id))
    {
      ok := run(RevertArgs(config, id));
    }

    /**
     * One pass of the refresh loop of configuration `config`, with the listing
     * snapper gives for it: a stale table is cleared and redrawn, the
     * configuration it shows is recorded, and the flag is cleared; a current
     * table is left alone.
     */
    method Refresh(config: string, listing: seq<seq<string>>)
      requires Listing(listing)
      modifies this
      ensures old(updated) ==> Shows(table, listing) && snapshots == listing && shownConfig == config
      ensures !old(updated) ==> table == old(table) && snapshots == old(snapshots) && shownConfig == old(shownConfig)
      ensures !updated
      ensures selectedConfig == old(selectedConfig) && snapshotName == old(snapshotName)
    {
      if !updated {
        return;
      }
      table := map[];
      var col := 0;
      while col < 6
        invariant 0 <= col <= 6
        invariant Filled(table, listing, 0, col)
        invariant updated && selectedConfig == old(selectedConfig) && snapshotName == old(snapshotName)
      {
        FilledSet(table, listing, 0, col);
        table := table[(0, col) := TableCell(Header[col], false)];
        col := col + 1;
      }
      FilledRow(table, listing, 0);
      var row := 0;
      while row < |listing|
        invariant 0 <= row <= |listing|
        invariant Filled(table, listing, if row == 0 then 1 else row, 0)
        invariant updated && selectedConfig == old(selectedConfig) && snapshotName == old(snapshotName)
      {
        if row != 0 {
          DrawRow(listing, row);
        }
        row := row + 1;
      }
      snapshots := listing;
      shownConfig := config;
      updated := false;
    }

    /** The cells of snapshot record `row`: Delete, Rollback, then its four columns. */
    method DrawRow(listing: seq<seq<string>>, row: nat)
      requires 1 <= row < |listing| && |listing[row]| >= 4
      requires Filled(table, listing, row, 0)
      modifies this
      ensures Filled(table, listing, row + 1, 0)
      ensures updated == old(updated) && selectedConfig == old(selectedConfig)
      ensures snapshotName == old(snapshotName) && snapshots == old(snapshots) && shownConfig == old(shownConfig)
    {
      FilledSet(table, listing, row, 0);
      table := table[(row, 0) := TableCell("Delete", true)];
      FilledSet(table, listing, row, 1);
      table := table[(row, 1) := TableCell("Rollback", true)];
      var c := 0;
      while c < 4
        invariant 0 <= c <= 4
        invariant Filled(table, listing, row, c + 2)
        invariant updated == old(updated) && selectedConfig == old(selectedConfig)
        invariant snapshotName == old(snapshotName) && snapshots == old(snapshots) && shownConfig == old(shownConfig)
      {
        FilledSet(table, listing, row, c + 2);
        table := table[(row, c + 2) := TableCell(listing[row][c], false)];
        c := c + 1;
      }
      FilledRow(table, listing, row);
    }

    /**
     * The selected-cell callback on the listing of the last refresh: column 0
     * deletes, column 1 reverts the snapshot of that row, in the configuration
     * that listing came from, whichever configuration is selected now.
     */
    method Activate(row: int, column: int, run: seq<string> -> bool) returns (ok: bool)
      requires column == 0 || column == 1 ==> 0 <= row < |snapshots| && |snapshots[row]| >= 2
      modifies this
      ensures selectedConfig == old(selectedConfig) && snapshotName == old(snapshotName)
      ensures table == old(table) && snapshots == old(snapshots) && shownConfig == old(shownConfig)
      ensures column == 0 ==>
                ok == run(DeleteArgs(shownConfig, snapshots[row][1])) && updated == (old(updated) || ok)
      ensures column == 1 ==>
                ok == run(RevertArgs(shownConfig, snapshots[row][1])) && updated == old(updated)
      ensures column != 0 && column != 1 ==> ok && updated == old(updated)
    {
      ok := true;
      var action := Dispatch(snapshots, row, column);
      if action.Some? {
        match action.value
        case Revert(id) =>
          ok := RevertSnapshot(shownConfig, id, run);
        case Delete(id) =>
          ok := DeleteSnapshot(shownConfig, id, run);
      }
    }
  }

  /**
   * Switching the configuration after a refresh does not change where a
   * table action goes: deleting from the drawn table acts in the
   * configuration the table was drawn for.
   */
  method DeleteAfterSwitch(console: Console, config: string, listing: seq<seq<string>>,
                           configurations: seq<string>, index: nat, row: nat, run: seq<string> -> bool)
    returns (ok: bool)
    requires console.updated && Listing(listing) && 1 <= row < |listing|
    requires index < |configurations|
    modifies console
    ensures ok == run(DeleteArgs(config, listing[row][1]))
    ensures console.selectedConfig == configurations[index] && console.shownConfig == config
  {
    console.Refresh(config, listing);
    console.SelectConfig(configurations, index);
    ok := console.Activate(row, 0, run);
  }
}
